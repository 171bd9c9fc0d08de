/** The directory iterator of src/driver/fs/FAT32.c: fat_init_root_dir_iterator and
    fat_read_next_dir_entry, against a scan over the flat list of the directory's records. */
module FatDir {
  import opened Bytes
  import opened Disk
  import opened FatVolume
  import opened FatGeometry
  import opened FatTable
  import opened FatNames
  import opened FatNameReading

  const RECORD: nat := 32
  const PER_SECTOR: nat := 16

  /** The 32-byte records of a directory's content. */
  function Records(bytes: seq<byte>): (recs: seq<Record>)
    ensures |recs| == |bytes| / RECORD
  {
    seq(|bytes| / RECORD, i requires 0 <= i < |bytes| / RECORD => bytes[RECORD * i..RECORD * i + RECORD])
  }

  /** The records of the directory stored in a chain. */
  ghost function DirRecords(card: Card, v: Volume, ch: seq<nat>): seq<Record>
    requires OnCard(card, v, ch)
  {
    Records(ChainBytes(card, v, ch))
  }

  lemma RecordCount(card: Card, v: Volume, ch: seq<nat>)
    requires Consistent(v, card) && OnCard(card, v, ch)
    ensures |DirRecords(card, v, ch)| == PER_SECTOR * Rows(|ch|, v.sectorsPerCluster)
  {
    ContentLength(card, v, ch);
    RowsScaled(|ch|, v.sectorsPerCluster, SECTOR);
  }

  /** Record e of sector s of cluster j, found through its place in the directory. */
  lemma RecordAt(card: Card, v: Volume, ch: seq<nat>, j: nat, s: nat, e: nat, idx: nat)
    requires OnCard(card, v, ch) && j < |ch| && s < v.sectorsPerCluster && e < PER_SECTOR
    requires idx == PER_SECTOR * (Rows(j, v.sectorsPerCluster) + s) + e
    ensures ClusterToLba(v, ch[j]) + s < |card.sectors|
    ensures idx < |DirRecords(card, v, ch)|
    ensures DirRecords(card, v, ch)[idx] == card.sectors[ClusterToLba(v, ch[j]) + s][RECORD * e..RECORD * e + RECORD]
  {
    ContentSlice(card, v, ch, j, s, RECORD * e, RECORD, RECORD * idx);
  }

  /** What a call reports, for what the scan finds. */
  ghost predicate Answers(scan: Scan, err: FatError, info: FileInfo, next: nat) {
    match scan
    case Hit(i, n) => err == Success && info == i && next == n
    case Miss(marker) => err == if marker then NoMoreEntries else EndOfChain
  }

  ghost predicate Found(recs: seq<Record>, i: nat, l: Lfn, err: FatError, info: FileInfo, next: nat) {
    |l.parts| == MAX_PARTS && Answers(ScanFrom(recs, i, l), err, info, next)
  }

  lemma NoneLeft(recs: seq<Record>, i: nat, l: Lfn, err: FatError, info: FileInfo, next: nat)
    requires |l.parts| == MAX_PARTS && (err == EndOfChain ==> i >= |recs|)
    ensures err == EndOfChain ==> Found(recs, i, l, err, info, next)
  {
  }

  ghost predicate SameScan(recs: seq<Record>, i: nat, l: Lfn, j: nat, m: Lfn) {
    |l.parts| == MAX_PARTS && |m.parts| == MAX_PARTS && ScanFrom(recs, i, l) == ScanFrom(recs, j, m)
  }

  /** A call that starts at record i with this checksum pending reports what the scan finds. */
  ghost predicate Finds(recs: seq<Record>, i: nat, sum: byte, err: FatError, info: FileInfo, next: nat) {
    Answers(ScanFrom(recs, i, Lfn(NoParts(), 0, sum)), err, info, next)
  }

  ghost predicate NoNuls(parts: seq<seq<byte>>) {
    forall i :: 0 <= i < |parts| ==> 0 !in parts[i]
  }

  lemma ScanStep(recs: seq<Record>, i: nat, l: Lfn)
    requires |l.parts| == MAX_PARTS && i < |recs|
    ensures ScanFrom(recs, i, l) ==
            if IsEnd(recs[i]) then Miss(true)
            else if IsDeleted(recs[i]) then ScanFrom(recs, i + 1, l)
            else if IsLong(recs[i]) then ScanFrom(recs, i + 1, LfnStep(l, recs[i]))
            else if IsLabel(recs[i]) then ScanFrom(recs, i + 1, Forget(l))
            else Hit(InfoFor(l, recs[i]), i + 1)
  {
  }

  /** The branch for long-name records. */
  method CollectPart(r: Record, parts: seq<seq<byte>>, found: byte, sum: byte)
    returns (parts': seq<seq<byte>>, found': byte, sum': byte)
    requires |parts| == MAX_PARTS && NoNuls(parts)
    ensures |parts'| == MAX_PARTS && NoNuls(parts')
    ensures Lfn(parts', found', sum') == LfnStep(Lfn(parts, found, sum), r)
  {
    parts', found', sum' := parts, found, sum;
    var order := Number(r);
    if order == 0 || order > MAX_PARTS {
      return parts, 0, 0;
    }
    if IsLast(r) {
      sum' := r[13];
    } else if sum == 0 {
      return parts, 0, 0;
    }
    var segment := new byte[40];
    ReadPart(r, segment);
    parts' := parts[order - 1 := CString(segment[..])];
    found' := (found + 1) % 0x100;
  }

  /** The rest of a pass, for a short record. */
  method MakeInfo(r: Record, parts: seq<seq<byte>>, found: byte, sum: byte) returns (info: FileInfo)
    requires |parts| == MAX_PARTS && NoNuls(parts)
    ensures info == InfoFor(Lfn(parts, found, sum), r)
  {
    var filename := new byte[256];
    var expected := SfnChecksum(r[..11]);
    if sum != 0 && expected == sum {
      Assemble(parts, found, filename);
    } else {
      SfnToString(r[..11], filename);
    }
    info := FileInfo(CString(filename[..]), Le16(r, 20) * TWO16 + Le16(r, 26), Le32(r, 28), r[11], r[11] / 16 % 2 == 1);
  }

  /** The pass of the loop for a record that is neither the end marker nor deleted. */
  method Process(r: Record, parts: seq<seq<byte>>, found: byte, sum: byte)
    returns (done: bool, info: FileInfo, parts': seq<seq<byte>>, found': byte, sum': byte)
    requires |parts| == MAX_PARTS && NoNuls(parts)
    ensures |parts'| == MAX_PARTS && NoNuls(parts')
    ensures done == (!IsLong(r) && !IsLabel(r))
    ensures done ==> info == InfoFor(Lfn(parts, found, sum), r) && sum' == 0
    ensures !done ==> Lfn(parts', found', sum')
                      == var l := Lfn(parts, found, sum); if IsLong(r) then LfnStep(l, r) else Forget(l)
  {
    if r[11] % 16 == 0x0F {
      info := FileInfo([], 0, 0, 0, false);
      parts', found', sum' := CollectPart(r, parts, found, sum);
      return false, info, parts', found', sum';
    }
    info := MakeInfo(r, parts, found, sum);
    done := !(info.attributes / 8 % 2 == 1 && !info.isDirectory);
    return done, info, parts, 0, 0;
  }

  /** What one processed record means for the scan. */
  lemma Processed(recs: seq<Record>, i: nat, l: Lfn, done: bool, info: FileInfo, l': Lfn)
    requires |l.parts| == MAX_PARTS && i < |recs| && !IsEnd(recs[i]) && !IsDeleted(recs[i])
    requires done == (!IsLong(recs[i]) && !IsLabel(recs[i]))
    requires done ==> info == InfoFor(l, recs[i])
    requires !done ==> l' == if IsLong(recs[i]) then LfnStep(l, recs[i]) else Forget(l)
    ensures if done then Found(recs, i, l, Success, info, i + 1) else SameScan(recs, i, l, i + 1, l')
  {
    ScanStep(recs, i, l);
  }

  /** fat_directory_iterator_t. Ghost fields name the directory's chain, the cluster of the chain the cursor
      is in, and the number of records before the cursor. */
  class DirIterator {
    var cluster: u32
    var sector: u32
    var entry: u16
    const buffer: array<byte>
    var valid: bool
    var lfnChecksum: byte
    ghost var chain: seq<nat>
    ghost var at: nat
    ghost var idx: nat

    constructor ()
      ensures fresh(buffer) && buffer.Length == SECTOR
    {
      buffer := new byte[SECTOR];
      cluster, sector, entry, valid, lfnChecksum := 0, 0, 0, false, 0;
    }

    ghost predicate AtStart()
      reads this
    {
      |chain| > 0 && cluster == chain[0] && sector == TWO32 - 1 && entry == 0 && at == 0 && idx == 0
    }

    /** The buffer holds the sector the cursor is in. */
    ghost predicate InSector(card: Card, v: Volume)
      reads this, buffer
    {
      && at < |chain| && cluster == chain[at]
      && sector < v.sectorsPerCluster && entry <= PER_SECTOR
      && idx == PER_SECTOR * (Rows(at, v.sectorsPerCluster) + sector) + entry
      && ClusterToLba(v, cluster) + sector < |card.sectors|
      && buffer[..] == card.sectors[ClusterToLba(v, cluster) + sector]
    }

    ghost predicate Ready(card: Card, v: Volume)
      reads this, buffer
    {
      && buffer.Length == SECTOR
      && Chain(card, v, chain) && OnCard(card, v, chain)
      && if valid then InSector(card, v) else AtStart()
    }

    /** fat_init_root_dir_iterator, for any directory. */
    method Init(card: Card, v: Volume, start: u32, ghost ch: seq<nat>)
      requires buffer.Length == SECTOR && Chain(card, v, ch) && ch[0] == start
      modifies this, buffer
      ensures Ready(card, v) && chain == ch && idx == 0 && lfnChecksum == 0 && !valid
    {
      forall i | 0 <= i < buffer.Length {
        buffer[i] := 0;
      }
      cluster, sector, entry, valid, lfnChecksum := start, TWO32 - 1, 0, false, 0;
      chain, at, idx := ch, 0, 0;
      ChainOnCard(card, v, ch);
    }

    /** The cursor stands at the start of a sector that has not been read yet. */
    ghost predicate Before(v: Volume)
      reads this
    {
      && at < |chain| && cluster == chain[at] && sector < v.sectorsPerCluster && entry == 0
      && idx == PER_SECTOR * (Rows(at, v.sectorsPerCluster) + sector)
    }

    /** After a failed load: the cursor has already moved to the sector that could not be read, or behind
        the cluster whose successor could not be found. */
    ghost predicate Behind(v: Volume)
      reads this
    {
      && at < |chain| && cluster == chain[at] && sector <= v.sectorsPerCluster
      && idx == PER_SECTOR * (Rows(at, v.sectorsPerCluster) + sector)
    }

    ghost predicate Retrying(card: Card, v: Volume)
      reads this
    {
      buffer.Length == SECTOR && Chain(card, v, chain) && OnCard(card, v, chain) && Behind(v)
    }

    /** Loading the next sector, from the next cluster if need be, when the buffer is used up. The end of
        the chain is reported exactly when no record is left. A failure leaves the buffer as it was, with
        the cursor at its first record. A call after that goes on with the old buffer, if there is one; when
        that is used up, or if there is none, it goes on behind the sector that could not be read. */
    method LoadSector(card: Card, v: Volume) returns (err: FatError)
      requires Ready(card, v) || Retrying(card, v)
      modifies this, buffer
      ensures chain == old(chain) && lfnChecksum == old(lfnChecksum)
      ensures old(valid && entry < PER_SECTOR) ==>
                && err == Success && valid && entry == old(entry) && idx == old(idx) && buffer[..] == old(buffer[..])
                && (old(Ready(card, v)) ==> Ready(card, v)) && (old(Retrying(card, v)) ==> Retrying(card, v))
      ensures err == Success && (old(Ready(card, v)) || old(!(valid && entry < PER_SECTOR))) ==>
                Ready(card, v) && valid && entry < PER_SECTOR
      ensures old(Ready(card, v)) ==> idx == old(idx)
      ensures old(Retrying(card, v) && !Ready(card, v) && !(valid && entry < PER_SECTOR)) ==>
                idx == old(idx) + if old(sector) < v.sectorsPerCluster then PER_SECTOR else 0
      ensures err != Success ==> err == EndOfChain || (err == ReadFail && !card.reliable)
      ensures err != Success ==> entry == 0 && valid == old(valid) && buffer[..] == old(buffer[..])
      ensures err != Success && old(Ready(card, v)) ==> Retrying(card, v)
      ensures err == EndOfChain ==> idx == |DirRecords(card, v, chain)|
    {
      if valid && entry < PER_SECTOR {
        return Success;
      }
      err := NextSector(card, v);
      if err == Success {
        err := LoadHere(card, v);
      }
    }

    method LoadHere(card: Card, v: Volume) returns (err: FatError)
      requires buffer.Length == SECTOR && Chain(card, v, chain) && OnCard(card, v, chain) && Before(v)
      modifies this`valid, buffer
      ensures if err == Success then Ready(card, v) && valid
              else err == ReadFail && !card.reliable && valid == old(valid) && buffer[..] == old(buffer[..])
    {
      var ok := ReadHere(card, v);
      if !ok {
        return ReadFail;
      }
      valid := true;
      return Success;
    }

    method NextSector(card: Card, v: Volume) returns (err: FatError)
      requires (Ready(card, v) || Retrying(card, v)) && !(valid && entry < PER_SECTOR)
      modifies this`cluster, this`sector, this`entry, this`at, this`idx
      ensures entry == 0
      ensures idx == old(idx) + if old(Ready(card, v)) || old(sector) >= v.sectorsPerCluster then 0 else PER_SECTOR
      ensures err == Success ==> Before(v)
      ensures err != Success && old(Ready(card, v)) ==> Behind(v)
      ensures err != Success ==> err == EndOfChain || (err == ReadFail && !card.reliable)
      ensures err == EndOfChain ==> idx == |DirRecords(card, v, chain)|
    {
      if !Ready(card, v) && sector < v.sectorsPerCluster {
        idx := idx + PER_SECTOR;
      }
      sector := (sector + 1) % TWO32;
      entry := 0;
      if sector >= v.sectorsPerCluster {
        err := NextCluster(card, v);
      } else {
        err := Success;
      }
    }

    /** The step to the chain's next cluster. */
    method NextCluster(card: Card, v: Volume) returns (err: FatError)
      requires Chain(card, v, chain) && OnCard(card, v, chain)
      requires at < |chain| && cluster == chain[at] && entry == 0
      requires idx == PER_SECTOR * Rows(at + 1, v.sectorsPerCluster)
      modifies this`cluster, this`sector, this`at
      ensures err == Success ==> Before(v)
      ensures err != Success ==> cluster == old(cluster) && sector == old(sector) && at == old(at)
      ensures err != Success ==> err == EndOfChain || (err == ReadFail && !card.reliable)
      ensures err == EndOfChain ==> idx == |DirRecords(card, v, chain)|
    {
      assert LinkedAt(card, v, chain, at);
      if at + 1 < |chain| {
        assert LinkedAt(card, v, chain, at + 1);
      } else {
        RecordCount(card, v, chain);
      }
      var next;
      err, next := GetNextCluster(card, v, cluster);
      if err == Success {
        cluster, sector := next, 0;
        at := at + 1;
      }
    }

    method ReadHere(card: Card, v: Volume) returns (ok: bool)
      requires buffer.Length == SECTOR && Chain(card, v, chain) && OnCard(card, v, chain)
      requires Before(v)
      modifies buffer
      ensures ok ==> ClusterToLba(v, cluster) + sector < |card.sectors|
                     && buffer[..] == card.sectors[ClusterToLba(v, cluster) + sector]
      ensures !ok ==> !card.reliable && buffer[..] == old(buffer[..])
    {
      ChainSectorAt(card, v, chain, at, sector);
      ok := card.ReadBlock(ClusterToLba(v, cluster) + sector, buffer, 0);
    }

    /** The record under the cursor; the cursor moves behind it. */
    method Take(card: Card, v: Volume) returns (r: Record)
      requires Ready(card, v) && valid && entry < PER_SECTOR
      modifies this
      ensures Ready(card, v) && valid && chain == old(chain) && lfnChecksum == old(lfnChecksum)
      ensures idx == old(idx) + 1
      ensures old(idx) < |DirRecords(card, v, chain)| && r == DirRecords(card, v, chain)[old(idx)]
    {
      RecordAt(card, v, chain, at, sector, entry, idx);
      var e := entry;
      r := buffer[RECORD * e..RECORD * e + RECORD];
      entry := e + 1;
      idx := idx + 1;
    }

    /** The call ended without an entry because of the card: the cursor is at the first record of the old
        buffer, on its way to the next sector. */
    ghost predicate Stopped(card: Card, v: Volume)
      reads this
    {
      Retrying(card, v) && entry == 0
    }

    /** Loading and taking a record, if there is one. */
    method Fetch(card: Card, v: Volume, ghost recs: seq<Record>) returns (err: FatError, r: Record)
      requires Ready(card, v) && recs == DirRecords(card, v, chain)
      modifies this, buffer
      ensures chain == old(chain) && lfnChecksum == old(lfnChecksum)
      ensures err == Success ==> Ready(card, v) && idx == old(idx) + 1 <= |recs| && r == recs[old(idx)]
      ensures err != Success ==> Ended(card, v, err) && (err == EndOfChain || err == ReadFail)
      ensures err == EndOfChain ==> old(idx) == |recs|
    {
      r := seq(RECORD, _ => 0);
      err := LoadSector(card, v);
      if err == Success {
        r := Take(card, v);
      }
    }

    method SetChecksum(card: Card, v: Volume, sum: byte)
      requires Ready(card, v)
      modifies this`lfnChecksum
      ensures Ready(card, v) && lfnChecksum == sum
    {
      lfnChecksum := sum;
    }

    /** The pending long name, as the loop's variables and the iterator hold it. */
    ghost predicate Holds(l: Lfn, parts: seq<seq<byte>>, found: byte)
      reads this`lfnChecksum
    {
      l == Lfn(parts, found, lfnChecksum) && |parts| == MAX_PARTS && NoNuls(parts)
    }

    /** One pass of the loop of fat_read_next_dir_entry: it skips a record, or ends the call. */
    method Pass(card: Card, v: Volume, parts: seq<seq<byte>>, found: byte, ghost recs: seq<Record>, ghost l: Lfn)
      returns (done: bool, err: FatError, info: FileInfo, parts': seq<seq<byte>>, found': byte, ghost l': Lfn)
      requires Ready(card, v) && recs == DirRecords(card, v, chain) && Holds(l, parts, found)
      modifies this, buffer
      ensures chain == old(chain) && Holds(l', parts', found')
      ensures !done ==> Ready(card, v) && idx == old(idx) + 1 <= |recs| && SameScan(recs, old(idx), l, idx, l')
      ensures done ==> Ended(card, v, err) && (err != ReadFail ==> Found(recs, old(idx), l, err, info, idx))
    {
      ghost var i := idx;
      var r;
      err, r := Fetch(card, v, recs);
      if err == Success {
        done, err, info, parts', found', l' := Dispatch(card, v, r, parts, found, recs, i, l);
      } else {
        done, info, parts', found', l' := true, FileInfo([], 0, 0, 0, false), parts, found, l;
        NoneLeft(recs, i, l, err, info, idx);
      }
    }

    /** What the pass does with the record it has taken. */
    method Dispatch(card: Card, v: Volume, r: Record, parts: seq<seq<byte>>, found: byte,
                    ghost recs: seq<Record>, ghost i: nat, ghost l: Lfn)
      returns (done: bool, err: FatError, info: FileInfo, parts': seq<seq<byte>>, found': byte, ghost l': Lfn)
      requires Ready(card, v) && i < |recs| && r == recs[i] && idx == i + 1 && Holds(l, parts, found)
      modifies this`lfnChecksum
      ensures Holds(l', parts', found')
      ensures !done ==> Ready(card, v) && SameScan(recs, i, l, idx, l')
      ensures done ==> Ended(card, v, err) && err != ReadFail && Found(recs, i, l, err, info, idx)
    {
      info, parts', found', l' := FileInfo([], 0, 0, 0, false), parts, found, l;
      if r[0] == 0x00 {
        return true, NoMoreEntries, info, parts', found', l';
      }
      if r[0] == 0xE5 {
        return false, Success, info, parts', found', l';
      }
      var sum;
      done, info, parts', found', sum := Process(r, parts, found, lfnChecksum);
      l' := Lfn(parts', found', sum);
      Processed(recs, i, l, done, info, l');
      SetChecksum(card, v, sum);
      err := Success;
    }

    /** How a call ends: ready for the next one with no long name pending, or behind the end marker, or
        stopped. */
    ghost predicate Ended(card: Card, v: Volume, err: FatError)
      reads this, buffer
    {
      match err
      case Success => Ready(card, v) && lfnChecksum == 0
      case NoMoreEntries => Ready(card, v)
      case EndOfChain => Stopped(card, v)
      case ReadFail => Stopped(card, v) && !card.reliable
      case _ => false
    }

    /** fat_read_next_dir_entry: what the scan over the directory's records finds from the cursor on. */
    method Next(card: Card, v: Volume) returns (err: FatError, info: FileInfo)
      requires Ready(card, v)
      modifies this, buffer
      ensures chain == old(chain) && Ended(card, v, err)
      ensures err != ReadFail ==> Finds(DirRecords(card, v, chain), old(idx), old(lfnChecksum), err, info, idx)
    {
      var done, parts: seq<seq<byte>>, found: byte := false, NoParts(), 0;
      err, info := Success, FileInfo([], 0, 0, 0, false);
      ghost var recs := DirRecords(card, v, chain);
      ghost var l := Lfn(parts, found, lfnChecksum);
      ghost var scan := ScanFrom(recs, idx, l);
      while !done
        invariant chain == old(chain)
        invariant Holds(l, parts, found)
        invariant !done ==> Ready(card, v) && scan == ScanFrom(recs, idx, l)
        invariant done ==> Ended(card, v, err) && (err != ReadFail ==> Answers(scan, err, info, idx))
        decreases !done, |recs| - idx
      {
        done, err, info, parts, found, l := Pass(card, v, parts, found, recs, l);
      }
    }

    // ----- calls after a failure -----

    /** When the sector behind a used-up buffer cannot be loaded, or there is none, the next call goes
        through the old buffer once more: the sixteen records it has already reported on. */
    method RetryRereads(card: Card, v: Volume) returns (err: FatError, again: seq<Record>)
      requires Ready(card, v) && valid && entry == PER_SECTOR
      modifies this, buffer
      ensures chain == old(chain) && idx == old(idx)
      ensures err != Success ==>
                && PER_SECTOR <= idx <= |DirRecords(card, v, chain)|
                && again == DirRecords(card, v, chain)[idx - PER_SECTOR..idx]
    {
      Buffered(card, v);
      err := LoadSector(card, v);
      again := [];
      if err != Success {
        var stale := LoadSector(card, v);
        assert stale == Success;
        again := Records(buffer[..]);
      }
    }

    lemma Buffered(card: Card, v: Volume)
      requires Ready(card, v) && valid && entry == PER_SECTOR
      ensures PER_SECTOR <= idx <= |DirRecords(card, v, chain)|
      ensures Records(buffer[..]) == DirRecords(card, v, chain)[idx - PER_SECTOR..idx]
    {
      var a, b := Records(buffer[..]), DirRecords(card, v, chain);
      RecordAt(card, v, chain, at, sector, PER_SECTOR - 1, idx - 1);
      forall e | 0 <= e < PER_SECTOR ensures a[e] == b[idx - PER_SECTOR + e] {
        RecordAt(card, v, chain, at, sector, e, idx - PER_SECTOR + e);
      }
    }

    /** Once the old buffer is used up again, or when there was none, the retry goes on sixteen records
        later if it was the sector that could not be read, and where it should if it was the table. */
    method RetrySkips(card: Card, v: Volume) returns (err: FatError, err': FatError, ghost skipped: nat)
      requires Ready(card, v)
      modifies this, buffer
      ensures chain == old(chain)
      ensures skipped == 0 || skipped == PER_SECTOR
      ensures err != Success && err' == Success ==> Ready(card, v) && valid && idx == old(idx) + skipped
    {
      err := LoadSector(card, v);
      err', skipped := Success, 0;
      if err != Success {
        skipped := if sector < v.sectorsPerCluster then PER_SECTOR else 0;
        entry := PER_SECTOR;
        err' := LoadSector(card, v);
      }
    }
  }
}

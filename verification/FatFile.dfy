/** Reading open files (src/driver/fs/FAT32.c: fat_read_file, fat32_read, fat32_close and the table of
    open files). */
module FatFile {
  import opened Bytes
  import opened Disk
  import opened FatVolume
  import opened FatGeometry
  import opened FatTable
  import opened FatHandle

  const MAX_OPEN_FILES: nat := 16

  // ----- one step of the cursor -----

  /** A cursor inside cluster j: where its byte lies on the card and in the content, and how far it can go
      in this sector. */
  lemma CursorSector(card: Card, v: Volume, ch: seq<nat>, h: Handle, j: nat, sector: nat, o: nat, n: nat)
    requires Chain(card, v, ch) && OnCard(card, v, ch) && CursorAt(v, ch, h, j) && h.offset < v.bytesPerCluster
    requires sector == h.offset / SECTOR && o == h.offset % SECTOR && o + n <= SECTOR
    ensures ClusterToLba(v, h.cluster) + sector < |card.sectors|
    ensures h.pos + n <= |ChainBytes(card, v, ch)| && h.offset + n <= v.bytesPerCluster
    ensures card.sectors[ClusterToLba(v, h.cluster) + sector][o..o + n] == ChainBytes(card, v, ch)[h.pos..h.pos + n]
  {
    RowsScaled(j, v.sectorsPerCluster, SECTOR);
    ContentSlice(card, v, ch, j, sector, o, n, h.pos);
  }

  lemma ChunkSize(left: u32, room: u32)
    requires left < TWO31 && room < TWO31
    ensures SignedMin(left, room) == Min(left, room)
  {
  }

  /** A cursor at the very end has delivered everything. */
  lemma CursorAtEnd(card: Card, v: Volume, ch: seq<nat>, h: Handle, j: nat)
    requires Chain(card, v, ch) && OnCard(card, v, ch) && CursorAt(v, ch, h, j) && h.offset == v.bytesPerCluster
    ensures h.pos == |ChainBytes(card, v, ch)|
  {
    ContentLength(card, v, ch);
  }

  /** The open files of a mounted volume. `chains` names, for every open file, its cluster chain. */
  class Driver {
    const card: Card
    const handles: array<Handle>
    var vol: Volume
    var mounted: bool
    ghost var chains: seq<seq<nat>>

    /** The state at start-up: the C globals are zero, so no slot is marked free yet. */
    constructor (card: Card)
      ensures this.card == card && !mounted && Table() && fresh(handles)
    {
      this.card := card;
      handles := new Handle[MAX_OPEN_FILES](_ => Handle(0, 0, 0, 0, 0, false, 0));
      vol := Volume(0, 0, 0, 0, 0, 0, 0, 0, 0, 0, 0, 0);
      mounted := false;
      chains := seq(MAX_OPEN_FILES, _ => []);
    }

    /** A slot is free, or its cursor is good, or a failed table lookup has left it stranded. */
    ghost predicate SlotOk(i: nat)
      reads this, handles
      requires i < handles.Length && i < |chains|
    {
      !handles[i].isFree ==>
        HandleOk(card, vol, chains[i], handles[i]) || Stranded(card, vol, chains[i], handles[i])
    }

    /** The file is open, and its cursor is good. */
    ghost predicate Readable(id: nat)
      reads this, handles
    {
      Open(id) && id < |chains| && HandleOk(card, vol, chains[id], handles[id])
    }

    ghost predicate Table()
      reads this
    {
      handles.Length == MAX_OPEN_FILES == |chains| && (mounted ==> Consistent(vol, card))
    }

    ghost predicate Valid()
      reads this, handles
    {
      Table() && mounted && forall i :: 0 <= i < MAX_OPEN_FILES ==> SlotOk(i)
    }

    /** Before mounting nothing is known about the slots. */
    ghost predicate Usable()
      reads this, handles
    {
      Table() && (mounted ==> Valid())
    }

    /** Every slot but one holds what it held. */
    twostate predicate OthersKept(id: nat)
      reads this, handles
    {
      && handles.Length == MAX_OPEN_FILES
      && forall i :: 0 <= i < MAX_OPEN_FILES && i != id ==> handles[i] == old(handles[i])
    }

    /** One pass of the copy loop of fat_read_file, for any 32-bit count still wanted. It moves the cursor by
        the chunk it computes, and copies as many bytes as the low 16 bits of that say: the same number, as
        much as is wanted or as the sector still holds, if the count is below 2^31 (FatHandle.ReadCondition),
        otherwise not (FatHandle.TooLong). */
    method CopyFromSector(id: nat, mem: array<byte>, at: nat, left: u32, ghost ch: seq<nat>, ghost j: nat)
      returns (ok: bool, n: u32)
      requires Table() && mounted && id < MAX_OPEN_FILES && 0 < left
      requires Chain(card, vol, ch) && OnCard(card, vol, ch)
      requires CursorAt(vol, ch, handles[id], j) && handles[id].offset < vol.bytesPerCluster
      requires var o := handles[id].offset % SECTOR; var length := Length(Chunk(left, SECTOR - o));
               o + length <= SECTOR && at + length <= mem.Length
      modifies mem, handles
      ensures OthersKept(id)
      ensures !ok ==> !card.reliable && mem[..] == old(mem[..]) && handles[id] == old(handles[id])
      ensures ok ==>
                var h := old(handles[id]);
                && n == Chunk(left, SECTOR - h.offset % SECTOR)
                && h.offset + Length(n) <= vol.bytesPerCluster && h.pos + Length(n) <= |ChainBytes(card, vol, ch)|
                && handles[id] == h.(pos := (h.pos + n) % TWO32, offset := (h.offset + n) % TWO32)
                && mem[..] == Splice(old(mem[..]), at, ChainBytes(card, vol, ch)[h.pos..h.pos + Length(n)])
    {
      ghost var h := handles[id];
      SectorBytes(ch, h, j, h.offset % SECTOR, Length(Chunk(left, SECTOR - h.offset % SECTOR)));
      ghost var data;
      ok, n, data := CopySector(id, mem, at, left);
    }

    lemma SectorBytes(ch: seq<nat>, h: Handle, j: nat, o: nat, n: u16)
      requires Table() && mounted && Chain(card, vol, ch) && OnCard(card, vol, ch)
      requires CursorAt(vol, ch, h, j) && h.offset < vol.bytesPerCluster && o == h.offset % SECTOR && o + n <= SECTOR
      ensures SectorUnder(h) < |card.sectors|
      ensures h.offset + n <= vol.bytesPerCluster && h.pos + n <= |ChainBytes(card, vol, ch)|
      ensures card.sectors[SectorUnder(h)][o..o + n] == ChainBytes(card, vol, ch)[h.pos..h.pos + n]
    {
      CursorSector(card, vol, ch, h, j, h.offset / SECTOR, o, n);
    }

    /** The pass itself, wherever the cursor stands: it reads the sector that the offset leads to, counted
        from the first one of the cursor's cluster. */
    method CopySector(id: nat, mem: array<byte>, at: nat, left: u32)
      returns (ok: bool, n: u32, ghost data: seq<byte>)
      requires Table() && mounted && id < MAX_OPEN_FILES && 0 < left
      requires var o := handles[id].offset % SECTOR; var length := Length(Chunk(left, SECTOR - o));
               o + length <= SECTOR && at + length <= mem.Length
      modifies mem, handles
      ensures OthersKept(id)
      ensures n == Chunk(left, SECTOR - old(handles[id]).offset % SECTOR)
      ensures !ok ==> mem[..] == old(mem[..]) && handles[id] == old(handles[id])
      ensures !ok && card.reliable ==> SectorUnder(old(handles[id])) >= |card.sectors|
      ensures ok ==>
                var h := old(handles[id]); var o := h.offset % SECTOR;
                && handles[id] == h.(pos := (h.pos + n) % TWO32, offset := (h.offset + n) % TWO32)
                && SectorUnder(h) < |card.sectors|
                && o + Length(n) <= SECTOR && data == card.sectors[SectorUnder(h)][o..o + Length(n)]
                && mem[..] == Splice(old(mem[..]), at, data)
    {
      var h := handles[id];
      var sector := h.offset / vol.bytesPerSector;
      var byteInSector := h.offset % vol.bytesPerSector;
      n := Chunk(left, vol.bytesPerSector - byteInSector);
      ok := card.ReadPartial(ClusterToLba(vol, h.cluster) + sector, byteInSector, mem, at, Length(n));
      data := [];
      if ok {
        data := card.sectors[SectorUnder(h)][byteInSector..byteInSector + Length(n)];
        handles[id] := h.(pos := (h.pos + n) % TWO32, offset := (h.offset + n) % TWO32);
      }
    }

    function SectorUnder(h: Handle): nat
      reads this
    {
      ClusterToLba(vol, h.cluster) + h.offset / SECTOR
    }

    /** Below 2^31 both numbers are the minimum, and nothing wraps. */
    method CopyChunk(id: nat, mem: array<byte>, at: nat, left: u32, ghost ch: seq<nat>, ghost j: nat)
      returns (ok: bool, n: u32)
      requires Table() && mounted && id < MAX_OPEN_FILES && at + left <= mem.Length && 0 < left < TWO31
      requires Chain(card, vol, ch) && OnCard(card, vol, ch)
      requires CursorAt(vol, ch, handles[id], j) && handles[id].offset < vol.bytesPerCluster
      requires handles[id].pos + left < TWO32
      modifies mem, handles
      ensures OthersKept(id)
      ensures !ok ==> !card.reliable && mem[..] == old(mem[..]) && handles[id] == old(handles[id])
      ensures ok ==>
                var h := old(handles[id]);
                && n == Min(left, SECTOR - h.offset % SECTOR)
                && h.offset + n <= vol.bytesPerCluster && h.pos + n <= |ChainBytes(card, vol, ch)|
                && handles[id] == h.(pos := h.pos + n, offset := h.offset + n)
                && mem[..] == Splice(old(mem[..]), at, ChainBytes(card, vol, ch)[h.pos..h.pos + n])
    {
      ShortChunk(left, SECTOR - handles[id].offset % SECTOR, handles[id].pos, handles[id].offset);
      ok, n := CopyFromSector(id, mem, at, left, ch, j);
    }

    lemma ShortChunk(left: u32, room: u32, pos: u32, offset: u32)
      requires 0 < left < TWO31 && 1 <= room <= SECTOR && pos + left < TWO32
      ensures var n := Chunk(left, room);
              n == Length(n) == Min(left, room) && (pos + n) % TWO32 == pos + n
              && (offset + n < TWO32 ==> (offset + n) % TWO32 == offset + n)
    {
      ReadCondition(left, left, room);
    }

    /** The end of a pass: on to the next cluster when this one is used up. */
    method Advance(id: nat, ghost ch: seq<nat>, ghost j: nat) returns (err: FatError, ghost j': nat)
      requires Table() && mounted && id < MAX_OPEN_FILES
      requires Chain(card, vol, ch) && j < |ch| && handles[id].cluster == ch[j]
      requires handles[id].pos == Rows(j, vol.bytesPerCluster) + handles[id].offset
      requires handles[id].offset <= vol.bytesPerCluster
      modifies handles
      ensures OthersKept(id)
      ensures handles[id].pos == old(handles[id].pos)
      ensures handles[id] == old(handles[id]).(cluster := handles[id].cluster, offset := handles[id].offset)
      ensures err == Success || err == EndOfChain || (err == ReadFail && !card.reliable)
      ensures err == Success ==> CursorAt(vol, ch, handles[id], j') && handles[id].offset < vol.bytesPerCluster
      ensures err == EndOfChain ==> CursorAt(vol, ch, handles[id], j) && handles[id].offset == vol.bytesPerCluster
      ensures err == ReadFail ==> CursorAt(vol, ch, handles[id], j) || StrandedAt(vol, ch, handles[id], j)
      ensures err == ReadFail ==> handles[id].offset == vol.bytesPerCluster
    {
      j' := j;
      if handles[id].offset < vol.bytesPerCluster {
        return Success, j;
      }
      err := StepOn(id, ch, j);
      if err == Success {
        j' := j + 1;
      }
    }

    /** The table lookup, and the step to the start of the next cluster. */
    method StepOn(id: nat, ghost ch: seq<nat>, ghost j: nat) returns (err: FatError)
      requires Table() && mounted && id < MAX_OPEN_FILES
      requires Chain(card, vol, ch) && j < |ch| && handles[id].cluster == ch[j]
      modifies handles
      ensures OthersKept(id)
      ensures err == Success ==>
                j + 1 < |ch| && handles[id] == old(handles[id]).(cluster := handles[id].cluster, offset := 0)
                && handles[id].cluster == ch[j + 1]
      ensures err != Success ==> handles[id] == old(handles[id])
      ensures err != Success ==> (err == EndOfChain && j + 1 == |ch|) || (err == ReadFail && !card.reliable)
    {
      assert LinkedAt(card, vol, ch, j);
      if j + 1 < |ch| {
        assert LinkedAt(card, vol, ch, j + 1);
      }
      var next;
      err, next := GetNextCluster(card, vol, handles[id].cluster);
      if err == Success {
        handles[id] := handles[id].(cluster := next, offset := 0);
      }
    }

    /** One pass on a stranded handle: it delivers the sector behind the used-up cluster, which is the first
        of the physically next one (BehindCluster), whatever the chain says. If the table can be read this
        time, the handle ends up at the start of the chain's next cluster, with a position that is n bytes
        ahead of that: no good cursor, and what it reads from there on is n bytes late. */
    method StrandedPass(id: nat, mem: array<byte>, at: nat, left: u32, ghost ch: seq<nat>, ghost j: nat)
      returns (ok: bool, n: u32, err: FatError)
      requires Table() && mounted && id < MAX_OPEN_FILES && at + left <= mem.Length && 0 < left < TWO31
      requires Chain(card, vol, ch) && StrandedAt(vol, ch, handles[id], j) && handles[id].pos + left < TWO32
      modifies mem, handles
      ensures OthersKept(id)
      ensures !ok ==> mem[..] == old(mem[..]) && handles[id] == old(handles[id])
      ensures ok ==>
                var h := old(handles[id]); var behind := ClusterToLba(vol, h.cluster) + vol.sectorsPerCluster;
                && n == Min(left, SECTOR) && behind < |card.sectors|
                && mem[..] == Splice(old(mem[..]), at, card.sectors[behind][..n])
                && handles[id].pos == h.pos + n == Rows(j + 1, vol.bytesPerCluster) + n
                && (err == Success ==> handles[id].cluster == ch[j + 1] && handles[id].offset == 0)
                && (err == Success ==> forall i: nat :: !CursorAt(vol, ch, handles[id], i))
                && (err != Success ==> err == ReadFail && !card.reliable)
    {
      ghost var h := handles[id];
      OffsetAtEnd(h);
      ShortChunk(left, SECTOR, h.pos, h.offset);
      ghost var data;
      ok, n, data := CopySector(id, mem, at, left);
      err := ReadFail;
      if ok {
        assert vol.bytesPerCluster <= handles[id].offset;
        err := StepOn(id, ch, j);
        if err == Success {
          NoCursor(ch, handles[id], j + 1, n);
        }
      }
    }

    lemma OffsetAtEnd(h: Handle)
      requires Table() && mounted && h.offset == vol.bytesPerCluster
      ensures h.offset % SECTOR == 0 && h.offset / SECTOR == vol.sectorsPerCluster
    {
    }

    lemma NoCursor(ch: seq<nat>, h: Handle, j: nat, n: nat)
      requires mounted && Chain(card, vol, ch) && j < |ch| && h.cluster == ch[j] && h.offset == 0
      requires n > 0 && h.pos == Rows(j, vol.bytesPerCluster) + n
      ensures forall i: nat :: !CursorAt(vol, ch, h, i)
    {
      forall i: nat ensures !CursorAt(vol, ch, h, i) {
        if CursorAt(vol, ch, h, i) && i != j {
          ChainDistinct(card, vol, ch, if i < j then i else j, if i < j then j else i);
        }
      }
    }

    /** The sector behind a cluster is the first of the physically next one. */
    lemma BehindCluster(c: nat)
      requires Table() && mounted && InRange(vol, c) && InRange(vol, c + 1)
      ensures ClusterToLba(vol, c) + vol.sectorsPerCluster == ClusterToLba(vol, c + 1)
    {
      ClusterInside(vol, card, c);
      ClusterInside(vol, card, c + 1);
    }

    /** `total` bytes of the content, from the old position on, have arrived in memory at `base`, and the
        handle has moved on by as much. */
    ghost predicate Delivered(h0: Handle, h: Handle, m0: seq<byte>, m: seq<byte>,
                              base: nat, content: seq<byte>, total: nat) {
      && h0.pos + total <= |content| && h0.pos + total < TWO32 && base + total <= |m0|
      && h == h0.(cluster := h.cluster, offset := h.offset, pos := h0.pos + total)
      && m == Splice(m0, base, content[h0.pos..h0.pos + total])
    }

    /** One pass: copy, then go to the next cluster if this one is used up. */
    method Pass(id: nat, mem: array<byte>, base: nat, total: u32, want: u32, ghost h0: Handle, ghost m0: seq<byte>,
                ghost ch: seq<nat>, ghost j: nat)
      returns (err: FatError, total': u32, ghost j': nat, ghost lookup: bool)
      requires Table() && mounted && id < MAX_OPEN_FILES && base + want <= mem.Length == |m0| && total < want < TWO31
      requires Chain(card, vol, ch) && OnCard(card, vol, ch) && CursorAt(vol, ch, handles[id], j)
      requires handles[id].offset < vol.bytesPerCluster && h0.pos + want < TWO32
      requires Delivered(h0, handles[id], m0, mem[..], base, ChainBytes(card, vol, ch), total)
      modifies mem, handles
      ensures OthersKept(id)
      ensures total <= total' <= want
      ensures Delivered(h0, handles[id], m0, mem[..], base, ChainBytes(card, vol, ch), total')
      ensures err == Success || err == EndOfChain || (err == ReadFail && !card.reliable)
      ensures err == Success ==> total < total' && CursorAt(vol, ch, handles[id], j')
                                 && handles[id].offset < vol.bytesPerCluster
      ensures err == EndOfChain ==> CursorAt(vol, ch, handles[id], j') && handles[id].offset == vol.bytesPerCluster
      ensures err == ReadFail && !lookup ==> && CursorAt(vol, ch, handles[id], j')
                                             && handles[id].offset < vol.bytesPerCluster
      ensures err == ReadFail && lookup ==> handles[id].offset == vol.bytesPerCluster
                                            && (|| CursorAt(vol, ch, handles[id], j')
                                                || StrandedAt(vol, ch, handles[id], j'))
    {
      lookup := false;
      var ok, n := CopyPiece(id, mem, base, total, want, h0, m0, ch, j);
      if !ok {
        return ReadFail, total, j, false;
      }
      total' := total + n;
      lookup := true;
      err, j' := Advance(id, ch, j);
      if err != Success {
        j' := j;
      }
    }

    method CopyPiece(id: nat, mem: array<byte>, base: nat, total: u32, want: u32, ghost h0: Handle, ghost m0: seq<byte>,
                     ghost ch: seq<nat>, ghost j: nat) returns (ok: bool, n: u32)
      requires Table() && mounted && id < MAX_OPEN_FILES && base + want <= mem.Length == |m0| && total < want < TWO31
      requires Chain(card, vol, ch) && OnCard(card, vol, ch) && CursorAt(vol, ch, handles[id], j)
      requires handles[id].offset < vol.bytesPerCluster && h0.pos + want < TWO32
      requires Delivered(h0, handles[id], m0, mem[..], base, ChainBytes(card, vol, ch), total)
      modifies mem, handles
      ensures OthersKept(id)
      ensures !ok ==> !card.reliable && mem[..] == old(mem[..]) && handles[id] == old(handles[id])
      ensures ok ==> && 0 < n <= want - total
                     && Delivered(h0, handles[id], m0, mem[..], base, ChainBytes(card, vol, ch), total + n)
                     && handles[id].cluster == ch[j]
                     && handles[id].pos == Rows(j, vol.bytesPerCluster) + handles[id].offset
                     && handles[id].offset <= vol.bytesPerCluster
    {
      ghost var h1, m1, content := handles[id], mem[..], ChainBytes(card, vol, ch);
      ok, n := CopyChunk(id, mem, base + total, want - total, ch, j);
      if ok {
        PieceDelivered(h0, h1, handles[id], m0, m1, mem[..], base, content, total, n);
      }
    }

    lemma PieceDelivered(h0: Handle, h1: Handle, h2: Handle, m0: seq<byte>, m1: seq<byte>, m2: seq<byte>, base: nat,
                         content: seq<byte>, total: nat, n: nat)
      requires Delivered(h0, h1, m0, m1, base, content, total)
      requires h1.pos + n <= |content| && h1.pos + n < TWO32 && base + total + n <= |m0|
      requires h2 == h1.(offset := h2.offset, pos := h1.pos + n)
      requires m2 == Splice(m1, base + total, content[h1.pos..h1.pos + n])
      ensures Delivered(h0, h2, m0, m2, base, content, total + n)
    {
      ContentGrows(m0, m1, m2, base, content, h0.pos, h1.pos, total, n);
    }

    /** The copy loop of fat_read_file. It delivers the file's next `want` bytes; when a read fails it has
        delivered a shorter piece, and the cursor is where that piece ends. Only a failed table lookup, at
        the end of a cluster, can leave the cursor stranded there. */
    method CopyLoop(id: nat, mem: array<byte>, base: nat, want: u32, ghost ch: seq<nat>)
      returns (err: FatError, total: u32, ghost lookup: bool)
      requires Table() && mounted && id < MAX_OPEN_FILES && base + want <= mem.Length && 0 < want < TWO31
      requires Chain(card, vol, ch) && OnCard(card, vol, ch) && exists j :: CursorAt(vol, ch, handles[id], j)
      requires handles[id].pos + want <= |ChainBytes(card, vol, ch)| && handles[id].pos + want < TWO32
      modifies mem, handles
      ensures OthersKept(id)
      ensures total <= want
      ensures Delivered(old(handles[id]), handles[id], old(mem[..]), mem[..], base, ChainBytes(card, vol, ch), total)
      ensures err == Success ==> total == want && exists j :: CursorAt(vol, ch, handles[id], j)
      ensures err != Success ==> err == ReadFail && !card.reliable
      ensures err != Success && !lookup ==> exists j :: CursorAt(vol, ch, handles[id], j)
      ensures err != Success && lookup ==>
                && handles[id].offset == vol.bytesPerCluster
                && exists j :: CursorAt(vol, ch, handles[id], j) || StrandedAt(vol, ch, handles[id], j)
    {
      lookup := false;
      ghost var h0, m0 := handles[id], mem[..];
      ghost var j :| CursorAt(vol, ch, handles[id], j);
      NotAtEnd(card, vol, ch, h0, j);
      total := 0;
      NothingDelivered(h0, m0, base, ChainBytes(card, vol, ch));
      while total < want
        invariant total <= want && OthersKept(id)
        invariant Delivered(h0, handles[id], m0, mem[..], base, ChainBytes(card, vol, ch), total)
        invariant CursorAt(vol, ch, handles[id], j)
        invariant total < want ==> handles[id].offset < vol.bytesPerCluster
      {
        err, total, j, lookup := Pass(id, mem, base, total, want, h0, m0, ch, j);
        if err == EndOfChain {
          CursorAtEnd(card, vol, ch, handles[id], j);
          break;
        } else if err != Success {
          return;
        }
      }
      err := Success;
    }

    lemma NothingDelivered(h: Handle, m: seq<byte>, base: nat, content: seq<byte>)
      requires h.pos <= |content| && base <= |m|
      ensures Delivered(h, h, m, m, base, content, 0)
    {
      assert content[h.pos..h.pos] == [];
    }

    /** A good cursor with more to come is inside a cluster. */
    lemma NotAtEndInside(card: Card, v: Volume, ch: seq<nat>, h: Handle)
      requires Consistent(v, card) && h.pos < h.size && h.offset == v.bytesPerCluster
      ensures !HandleOk(card, v, ch, h)
    {
      if HandleOk(card, v, ch, h) {
        var j :| CursorAt(v, ch, h, j);
        CursorAtEnd(card, v, ch, h, j);
      }
    }

    lemma NotAtEnd(card: Card, v: Volume, ch: seq<nat>, h: Handle, j: nat)
      requires Chain(card, v, ch) && OnCard(card, v, ch) && CursorAt(v, ch, h, j) && h.pos < |ChainBytes(card, v, ch)|
      ensures h.offset < v.bytesPerCluster
    {
      if h.offset == v.bytesPerCluster {
        CursorAtEnd(card, v, ch, h, j);
      }
    }

    /** Two pieces copied one behind the other are one piece. */
    lemma ContentGrows(m0: seq<byte>, m1: seq<byte>, m2: seq<byte>, base: nat, content: seq<byte>,
                       pos: nat, mid: nat, total: nat, n: nat)
      requires mid == pos + total && mid + n <= |content| && base + total + n <= |m0|
      requires m1 == Splice(m0, base, content[pos..mid]) && m2 == Splice(m1, base + total, content[mid..mid + n])
      ensures m2 == Splice(m0, base, content[pos..pos + (total + n)])
    {
      SpliceTwice(m0, base, content[pos..mid], content[mid..mid + n]);
      assert content[pos..mid] + content[mid..mid + n] == content[pos..pos + (total + n)];
    }

    // ----- fat_read_file -----

    ghost predicate Open(id: nat)
      reads this, handles
    {
      id < MAX_OPEN_FILES && id < handles.Length && !handles[id].isFree
    }

    /** What an open file holds. */
    ghost function FileBytes(id: nat): seq<byte>
      requires Open(id) && id < |chains| && FileOk(card, vol, chains[id], handles[id])
      reads this, handles
    {
      Contents(card, vol, chains[id], handles[id].size)
    }

    /** The next min(n, what is left) bytes of the file, for counts and rests below 2^31 (for others it takes
        the wrong first chunk: FatHandle.ReadCondition). A failed sector read leaves the cursor behind the
        bytes that did arrive, ready to go on; only a failed table lookup (`lookup`) can leave it stranded. */
    method ReadFile(id: u32, mem: array<byte>, base: nat, n: u32) returns (err: FatError, ghost lookup: bool)
      requires Usable() && base + n <= mem.Length
      requires mounted && Open(id) ==>
                 Readable(id) && n < TWO31 && handles[id].size - handles[id].pos < TWO31
      modifies mem, handles
      ensures Table() && OthersKept(id)
      ensures !mounted || !old(Open(id)) ==>
                && err == (if mounted then BadFatEntry else NotInitialized)
                && mem[..] == old(mem[..]) && handles[..] == old(handles[..])
      ensures mounted && old(Open(id)) ==>
                && Open(id) && FileOk(card, vol, chains[id], handles[id])
                && old(FileOk(card, vol, chains[id], handles[id]))
                && HandedOver(old(handles[id]), handles[id], old(mem[..]), mem[..], base, old(FileBytes(id)))
                && handles[id].pos <= old(handles[id].pos + Min(n, handles[id].size - handles[id].pos))
                && (err == Success ==> Readable(id)
                                       && handles[id].pos == old(handles[id].pos)
                                          + Min(n, old(handles[id].size - handles[id].pos)))
                && (err != Success ==> err == ReadFail && !card.reliable && FailedAt(id, lookup))
      ensures mounted ==> Valid()
    {
      lookup := false;
      if !mounted {
        return NotInitialized, false;
      }
      if id >= MAX_OPEN_FILES || handles[id].isFree {
        return BadFatEntry, false;
      }
      ghost var ch, h0 := chains[id], handles[id];
      var want := SignedMin(n, handles[id].size - handles[id].pos);
      ChunkSize(n, handles[id].size - handles[id].pos);
      if want == 0 {
        NothingRead(h0, mem[..], base, FileBytes(id));
        return Success, false;
      }
      ghost var m0 := mem[..];
      var total;
      err, total, lookup := CopyLoop(id, mem, base, want, ch);
      ReadOutcome(h0, handles[id], m0, mem[..], base, ch, total);
      StillValid(id);
    }

    /** Where a failed read leaves the cursor: ready to go on, unless it was the table lookup at the end of
        a cluster that failed. */
    ghost predicate FailedAt(id: nat, lookup: bool)
      reads this, handles
    {
      && Open(id) && id < |chains|
      && if lookup then
           && handles[id].offset == vol.bytesPerCluster
           && (Readable(id) || Stranded(card, vol, chains[id], handles[id]))
         else Readable(id)
    }

    lemma NothingRead(h: Handle, m: seq<byte>, base: nat, contents: seq<byte>)
      requires h.pos <= |contents| && base <= |m|
      ensures HandedOver(h, h, m, m, base, contents)
    {
      assert contents[h.pos..h.pos] == [];
    }

    lemma ReadOutcome(h: Handle, h': Handle, m: seq<byte>, m': seq<byte>, base: nat, ch: seq<nat>, total: nat)
      requires FileOk(card, vol, ch, h) && h.size > 0 && h.pos + total <= h.size
      requires Delivered(h, h', m, m', base, ChainBytes(card, vol, ch), total)
      ensures HandedOver(h, h', m, m', base, Contents(card, vol, ch, h.size))
      ensures FileOk(card, vol, ch, h')
    {
      PrefixSlice(ChainBytes(card, vol, ch), h.size, h.pos, h.pos + total);
    }

    lemma PrefixSlice(s: seq<byte>, n: nat, a: nat, b: nat)
      requires a <= b <= n <= |s|
      ensures s[..n][a..b] == s[a..b]
    {
    }

    // ----- fat32_read, fat32_close, fat32_get_size -----

    /** fat32_read: success as a bool. */
    method Read(id: u32, mem: array<byte>, base: nat, n: u32) returns (ok: bool, ghost lookup: bool)
      requires Usable() && base + n <= mem.Length
      requires mounted && Open(id) ==>
                 Readable(id) && n < TWO31 && handles[id].size - handles[id].pos < TWO31
      modifies mem, handles
      ensures Table() && OthersKept(id)
      ensures !mounted || !old(Open(id)) ==> !ok && mem[..] == old(mem[..]) && handles[..] == old(handles[..])
      ensures mounted && old(Open(id)) ==>
                && Open(id) && FileOk(card, vol, chains[id], handles[id])
                && old(FileOk(card, vol, chains[id], handles[id]))
                && HandedOver(old(handles[id]), handles[id], old(mem[..]), mem[..], base, old(FileBytes(id)))
                && handles[id].pos <= old(handles[id].pos + Min(n, handles[id].size - handles[id].pos))
                && (ok ==> Readable(id)
                           && handles[id].pos == old(handles[id].pos + Min(n, handles[id].size - handles[id].pos)))
                && (!ok ==> !card.reliable && FailedAt(id, lookup))
      ensures mounted ==> Valid()
    {
      lookup := false;
      if id >= MAX_OPEN_FILES || handles[id].isFree {
        return false, false;
      }
      var err;
      err, lookup := ReadFile(id, mem, base, n);
      ok := err == Success;
    }

    /** A change in one good slot leaves the table good. */
    twostate lemma StillValid(id: nat)
      requires old(Valid()) && Table() && mounted && OthersKept(id) && id < MAX_OPEN_FILES
      requires vol == old(vol) && SlotOk(id)
      requires forall i :: 0 <= i < MAX_OPEN_FILES && i != id ==> chains[i] == old(chains[i])
      ensures Valid()
    {
      forall i | 0 <= i < MAX_OPEN_FILES ensures SlotOk(i) {
        assert old(SlotOk(i));
      }
    }

    /** The slots below i are taken. */
    ghost predicate TakenBelow(i: nat)
      reads this, handles
    {
      i <= handles.Length && forall k :: 0 <= k < i ==> !handles[k].isFree
    }

    /** The second half of fat32_open: the lowest free slot gets the new handle; 2^32 - 1 says that all are
        taken. */
    method Install(start: u32, size: u32, mode: u8, ghost ch: seq<nat>) returns (id: u32)
      requires Valid()
      requires size > 0 ==> Chain(card, vol, ch) && ch[0] == start && OnCard(card, vol, ch)
                            && size <= |ChainBytes(card, vol, ch)|
      modifies this`chains, handles
      ensures Valid() && OthersKept(id)
      ensures id < MAX_OPEN_FILES || id == TWO32 - 1
      ensures id < MAX_OPEN_FILES ==>
                && old(handles[id].isFree) && old(TakenBelow(id))
                && handles[id] == Handle(start, start, 0, size, 0, false, mode)
                && chains == old(chains)[id := ch]
      ensures id == TWO32 - 1 ==> old(TakenBelow(MAX_OPEN_FILES)) && chains == old(chains)
    {
      var i := 0;
      while i < MAX_OPEN_FILES
        invariant 0 <= i <= MAX_OPEN_FILES && old(TakenBelow(i))
        invariant handles[..] == old(handles[..]) && chains == old(chains) && Valid()
      {
        if handles[i].isFree {
          handles[i] := Handle(start, start, 0, size, 0, false, mode);
          chains := chains[i := ch];
          assert size > 0 ==> CursorAt(vol, ch, handles[i], 0);
          StillValid(i);
          return i;
        }
        i := i + 1;
      }
      return TWO32 - 1;
    }

    /** fat32_close */
    method Close(id: u32) returns (ok: bool)
      requires Valid()
      modifies handles
      ensures Valid() && ok == (id < MAX_OPEN_FILES)
      ensures OthersKept(id)
      ensures ok ==> handles[id] == old(handles[id]).(isFree := true)
    {
      if id >= MAX_OPEN_FILES {
        return false;
      }
      handles[id] := handles[id].(isFree := true);
      StillValid(id);
      return true;
    }

    /** fat32_get_size */
    method GetSize(id: u32) returns (size: u32)
      requires handles.Length == MAX_OPEN_FILES
      ensures size == if id < MAX_OPEN_FILES then handles[id].size else 0
    {
      size := if id >= MAX_OPEN_FILES then 0 else handles[id].size;
    }

    // ----- runs of reads -----

    /** Any run of reads on one open file and any card, into consecutive memory, goes on until all reads are
        done or the cursor is stranded. Whichever sector reads have failed in between, what has arrived is
        the file's next bytes, one piece behind the other, and the next read goes on behind them. On a
        reliable card it is as many bytes as were asked for in total, or as were left. */
    method ReadRun(id: u32, mem: array<byte>, base: nat, counts: seq<u32>) returns (done: nat, used: nat)
      requires Valid() && mounted && Readable(id) && base + Sum(counts) <= mem.Length
      requires handles[id].size < TWO31 && forall n :: n in counts ==> n < TWO31
      modifies mem, handles
      ensures Valid() && OthersKept(id) && Open(id) && used <= |counts|
      ensures used < |counts| ==> !card.reliable && Stranded(card, vol, chains[id], handles[id])
      ensures used == |counts| ==> Readable(id)
      ensures old(FileOk(card, vol, chains[id], handles[id]))
      ensures HandedOver(old(handles[id]), handles[id], old(mem[..]), mem[..], base, old(FileBytes(id)))
      ensures handles[id].pos == old(handles[id].pos) + done
      ensures card.reliable ==> done == Min(Sum(counts), old(handles[id].size - handles[id].pos))
    {
      ghost var h0, m0, file := handles[id], mem[..], FileBytes(id);
      NothingRead(h0, m0, base, file);
      done, used := 0, 0;
      while used < |counts|
        invariant 0 <= used <= |counts| && Valid() && OthersKept(id)
        invariant Readable(id) && FileBytes(id) == file && Arrived(h0, handles[id], m0, mem[..], base, file, done)
        invariant Tallied(counts, used, done, h0.size - h0.pos)
      {
        var ok;
        done, ok := ReadNext(id, mem, base, counts, used, done, h0, m0, file);
        if !ok {
          return;
        }
        used := used + 1;
      }
      assert counts[..used] == counts;
    }

    /** The bytes arrived so far: `done` of them. */
    ghost predicate Arrived(h0: Handle, h: Handle, m0: seq<byte>, m: seq<byte>, base: nat, file: seq<byte>, done: nat) {
      HandedOver(h0, h, m0, m, base, file) && h.pos == h0.pos + done && h.size == h0.size
    }

    /** What the first reads have brought: never more than they asked for, and on a reliable card that or
        what was left. */
    ghost predicate Tallied(counts: seq<u32>, used: nat, done: nat, rest: nat) {
      && used <= |counts| && done <= Sum(counts[..used]) <= Sum(counts)
      && (card.reliable ==> done == Min(Sum(counts[..used]), rest))
    }

    lemma NextFits(counts: seq<u32>, used: nat, done: nat, rest: nat)
      requires Tallied(counts, used, done, rest) && used < |counts|
      ensures done + counts[used] <= Sum(counts) && counts[used] in counts
    {
      SumNext(counts, used);
    }

    lemma TallyNext(counts: seq<u32>, used: nat, done: nat, rest: nat, got: nat)
      requires Tallied(counts, used, done, rest) && used < |counts|
      requires got <= counts[used] && (card.reliable ==> got == Min(counts[used], rest - done))
      ensures Tallied(counts, used + 1, done + got, rest)
    {
      SumNext(counts, used);
    }

    method ReadNext(id: u32, mem: array<byte>, base: nat, counts: seq<u32>, used: nat, done: nat,
                    ghost h0: Handle, ghost m0: seq<byte>, ghost file: seq<byte>) returns (done': nat, ok: bool)
      requires Valid() && mounted && Readable(id) && base + Sum(counts) <= mem.Length && used < |counts|
      requires h0.size < TWO31 && forall n :: n in counts ==> n < TWO31
      requires FileBytes(id) == file && Arrived(h0, handles[id], m0, mem[..], base, file, done)
      requires Tallied(counts, used, done, h0.size - h0.pos)
      modifies mem, handles
      ensures Valid() && OthersKept(id) && Open(id)
      ensures if ok then Readable(id) && FileBytes(id) == file
              else !card.reliable && Stranded(card, vol, chains[id], handles[id])
      ensures Arrived(h0, handles[id], m0, mem[..], base, file, done')
      ensures Tallied(counts, used + 1, done', h0.size - h0.pos)
    {
      NextFits(counts, used, done, h0.size - h0.pos);
      var got;
      got, ok := ReadMore(id, mem, base, done, counts[used], h0, m0, file);
      TallyNext(counts, used, done, h0.size - h0.pos, got);
      done' := done + got;
    }

    /** One more read of such a run; `ok` says that the cursor is good afterwards. */
    method ReadMore(id: u32, mem: array<byte>, base: nat, done: nat, n: u32,
                    ghost h0: Handle, ghost m0: seq<byte>, ghost file: seq<byte>) returns (got: nat, ok: bool)
      requires Valid() && mounted && Readable(id) && base + done + n <= mem.Length
      requires n < TWO31 && handles[id].size < TWO31
      requires FileBytes(id) == file && Arrived(h0, handles[id], m0, mem[..], base, file, done)
      modifies mem, handles
      ensures Valid() && OthersKept(id) && Open(id) && got <= n
      ensures if ok then Readable(id) && FileBytes(id) == file
              else !card.reliable && Stranded(card, vol, chains[id], handles[id])
      ensures Arrived(h0, handles[id], m0, mem[..], base, file, done + got)
      ensures card.reliable ==> got == Min(n, h0.size - h0.pos - done)
    {
      ghost var m1 := mem[..];
      var h1 := handles[id];
      var success;
      ghost var lookup;
      success, lookup := Read(id, mem, base + done, n);
      got := handles[id].pos - h1.pos;
      HandedOverTwice(h0, h1, handles[id], m0, m1, mem[..], base, file);
      ok := CursorGood(id);
    }

    /** Whether the cursor is good: it is stranded exactly when it stands at the end of a cluster with more
        of the file to come. */
    method CursorGood(id: nat) returns (ok: bool)
      requires Table() && mounted && Open(id) && SlotOk(id)
      ensures ok <==> Readable(id)
      ensures !ok <==> Stranded(card, vol, chains[id], handles[id])
    {
      if handles[id].offset == vol.bytesPerCluster && handles[id].pos < handles[id].size {
        NotAtEndInside(card, vol, chains[id], handles[id]);
        return false;
      }
      return true;
    }
  }

  function Sum(s: seq<u32>): nat {
    if s == [] then 0 else Sum(s[..|s| - 1]) + s[|s| - 1]
  }

  lemma {:induction false} SumNext(s: seq<u32>, i: nat)
    requires i < |s|
    ensures Sum(s[..i + 1]) == Sum(s[..i]) + s[i]
    ensures Sum(s[..i + 1]) <= Sum(s)
    decreases |s| - i
  {
    assert s[..i + 1][..i] == s[..i];
    if i + 1 < |s| {
      SumNext(s, i + 1);
    } else {
      assert s[..i + 1] == s;
    }
  }

  lemma HandedOverTwice(h0: Handle, h1: Handle, h2: Handle, m0: seq<byte>, m1: seq<byte>, m2: seq<byte>, base: nat,
                        file: seq<byte>)
    requires HandedOver(h0, h1, m0, m1, base, file)
    requires HandedOver(h1, h2, m1, m2, base + (h1.pos - h0.pos), file)
    ensures HandedOver(h0, h2, m0, m2, base, file)
  {
    SpliceTwice(m0, base, file[h0.pos..h1.pos], file[h1.pos..h2.pos]);
    assert file[h0.pos..h1.pos] + file[h1.pos..h2.pos] == file[h0.pos..h2.pos];
  }
}

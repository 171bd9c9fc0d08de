/** An open file of src/driver/fs/FAT32.c: what its cursor means. */
module FatHandle {
  import opened Bytes
  import opened Disk
  import opened FatVolume

  /** file_handle_t */
  datatype Handle = Handle(start: u32, cluster: u32, offset: u32, size: u32, pos: u32, isFree: bool, mode: u8)

  /** The file's bytes: its chain's content cut to its size. An empty file has no chain. */
  ghost function Contents(card: Card, v: Volume, ch: seq<nat>, size: nat): seq<byte>
    requires size > 0 ==> OnCard(card, v, ch) && size <= |ChainBytes(card, v, ch)|
  {
    if size == 0 then [] else ChainBytes(card, v, ch)[..size]
  }

  /** The cursor stands in cluster j of the chain: inside it, or at the end of the last one. */
  ghost predicate CursorAt(v: Volume, ch: seq<nat>, h: Handle, j: nat) {
    && j < |ch| && h.cluster == ch[j]
    && h.pos == Rows(j, v.bytesPerCluster) + h.offset
    && (h.offset < v.bytesPerCluster || (h.offset == v.bytesPerCluster && j + 1 == |ch|))
  }

  /** The cursor has used up cluster j but never got hold of the next one. */
  ghost predicate StrandedAt(v: Volume, ch: seq<nat>, h: Handle, j: nat) {
    && j + 1 < |ch| && h.cluster == ch[j]
    && h.pos == Rows(j + 1, v.bytesPerCluster) && h.offset == v.bytesPerCluster
  }

  /** What does not depend on the cursor: the chain is the file's and is long enough. */
  ghost predicate FileOk(card: Card, v: Volume, ch: seq<nat>, h: Handle) {
    && h.pos <= h.size
    && (h.size > 0 ==> && Chain(card, v, ch) && ch[0] == h.start && OnCard(card, v, ch)
                       && h.size <= |ChainBytes(card, v, ch)|)
  }

  /** As long as there is more to read, the cursor stands in the chain. */
  ghost predicate HandleOk(card: Card, v: Volume, ch: seq<nat>, h: Handle) {
    FileOk(card, v, ch, h) && (h.pos < h.size ==> exists j :: CursorAt(v, ch, h, j))
  }

  /** There is more to read, and the cursor is stuck behind a cluster. */
  ghost predicate Stranded(card: Card, v: Volume, ch: seq<nat>, h: Handle) {
    FileOk(card, v, ch, h) && h.pos < h.size && exists j :: StrandedAt(v, ch, h, j)
  }

  /** From h to h', the bytes between their positions have arrived in memory at `base`, and only the
      cursor has moved. */
  ghost predicate HandedOver(h: Handle, h': Handle, m: seq<byte>, m': seq<byte>, base: nat, contents: seq<byte>) {
    && h' == h.(cluster := h'.cluster, offset := h'.offset, pos := h'.pos)
    && h.pos <= h'.pos <= |contents| && base + (h'.pos - h.pos) <= |m|
    && m' == Splice(m, base, contents[h.pos..h'.pos])
  }

  // ----- min, as the source computes it -----

  /** A 32-bit word read as a signed int. */
  function Signed(n: u32): int {
    if n < TWO31 then n else n - TWO32
  }

  /** min(int, int) applied to unsigned arguments. */
  function SignedMin(a: u32, b: u32): u32 {
    if Signed(a) < Signed(b) then a else b
  }

  /** It is the minimum exactly when the arguments are equal or lie on the same side of 2^31. */
  lemma SignedMinIsMin(a: u32, b: u32)
    ensures SignedMin(a, b) == Min(a, b) <==> a == b || (a < TWO31 <==> b < TWO31)
  {
  }

  // ----- how much one pass of the read loop takes -----

  /** The first min of fat_read_file. */
  function Wanted(n: u32, rest: u32): u32 {
    SignedMin(n, rest)
  }

  /** The min inside the loop, for what is still wanted and what the sector still holds. */
  function Chunk(left: u32, room: u32): u32 {
    SignedMin(left, room)
  }

  /** The length that reaches the block reader, whose parameter has 16 bits. */
  function Length(chunk: u32): u16 {
    chunk % TWO16
  }

  /** A read takes the right first chunk exactly when the count and the rest of the file are below 2^31. */
  lemma ReadCondition(n: u32, rest: u32, room: u32)
    requires 1 <= room <= 512
    ensures Chunk(Wanted(n, rest), room) == Min(Min(n, rest), room) <==> n < TWO31 && rest < TWO31
    ensures n < TWO31 && rest < TWO31 ==> Length(Chunk(Wanted(n, rest), room)) == Min(Min(n, rest), room)
  {
  }

  /** For a count and a rest of exactly 2^31, where the first min is right, the pass asks the card for no
      byte at all and yet counts 2^31 bytes as read. */
  lemma TooLong(room: u32)
    requires 1 <= room <= 512
    ensures Wanted(TWO31, TWO31) == TWO31 && Chunk(TWO31, room) == TWO31 && Length(TWO31) == 0
  {
  }
}

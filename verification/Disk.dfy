/** The block device under src/driver/fs/FAT32.c: an SD card of 512-byte blocks whose reads may fail. */
module Disk {
  import opened Bytes

  const SECTOR: nat := 512

  type Sector = s: seq<byte> | |s| == 512 witness seq(512, _ => 0)

  /** A card. A card that is not reliable may refuse any read. */
  datatype Card = Card(sectors: seq<Sector>, reliable: bool) {

    /** sdReadPartialBlock: `count` bytes of one block, from `offset` on, into memory at `base`.
        SdBlock.Spi.SdReadPartialBlock proves this of the bytes on the line. */
    method ReadPartial(lba: nat, offset: nat, mem: array<byte>, base: nat, count: nat) returns (ok: bool)
      requires offset + count <= SECTOR && base + count <= mem.Length
      modifies mem
      ensures ok ==> lba < |sectors| && mem[..] == Splice(old(mem[..]), base, sectors[lba][offset..offset + count])
      ensures !ok ==> mem[..] == old(mem[..])
      ensures reliable && lba < |sectors| ==> ok
    {
      if lba >= |sectors| {
        return false;
      }
      ok := *;
      if reliable {
        ok := true;
      }
      if ok {
        var s := sectors[lba];
        forall i | 0 <= i < count {
          mem[base + i] := s[offset + i];
        }
      }
    }

    /** sdReadBlock */
    method ReadBlock(lba: nat, mem: array<byte>, base: nat) returns (ok: bool)
      requires base + SECTOR <= mem.Length
      modifies mem
      ensures ok ==> lba < |sectors| && mem[..] == Splice(old(mem[..]), base, sectors[lba])
      ensures !ok ==> mem[..] == old(mem[..])
      ensures reliable && lba < |sectors| ==> ok
    {
      ok := ReadPartial(lba, 0, mem, base, SECTOR);
      if ok {
        assert sectors[lba][0..0 + SECTOR] == sectors[lba];
      }
    }
  }

  /** The bytes of consecutive blocks. */
  function Flat(ss: seq<Sector>): (r: seq<byte>)
    ensures |r| == SECTOR * |ss|
  {
    if ss == [] then [] else ss[0] + Flat(ss[1..])
  }

  lemma {:induction false} FlatAt(ss: seq<Sector>, i: nat)
    requires i < |ss|
    ensures Flat(ss)[SECTOR * i..SECTOR * i + SECTOR] == ss[i]
  {
    if i > 0 {
      FlatAt(ss[1..], i - 1);
      assert Flat(ss)[SECTOR * i..SECTOR * i + SECTOR] == Flat(ss[1..])[SECTOR * (i - 1)..SECTOR * (i - 1) + SECTOR];
    }
  }

  /** Bytes inside one block, found through their place in the whole. */
  lemma FlatSlice(ss: seq<Sector>, i: nat, o: nat, n: nat)
    requires i < |ss| && o + n <= SECTOR
    ensures SECTOR * i + o + n <= |Flat(ss)|
    ensures Flat(ss)[SECTOR * i + o..SECTOR * i + o + n] == ss[i][o..o + n]
  {
    FlatAt(ss, i);
    assert ss[i][o..o + n] == Flat(ss)[SECTOR * i..SECTOR * i + SECTOR][o..o + n];
  }
}

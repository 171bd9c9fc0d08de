/** Receiving a data block over SPI (src/lib/sd/SD.c: read_data_block, read_data_block_partial): the bounded
    wait for the start token, and the full and the partial read of one stream. */
module SdBlock {
  import opened Bytes
  import opened Disk

  const SD_BLOCK_SIZE: nat := 512
  const START_TOKEN: byte := 0xFE
  const IDLE: byte := 0xFF

  /** The next n bytes of the line from position p on. */
  function Stream(line: nat -> byte, p: nat, n: nat): (s: seq<byte>)
    ensures |s| == n && forall i :: 0 <= i < n ==> s[i] == line(p + i)
  {
    seq(n, i requires 0 <= i < n => line(p + i))
  }

  /** The first byte from p on that is not idle stands at q. */
  ghost predicate FirstAt(line: nat -> byte, p: nat, q: nat) {
    p <= q && line(q) != IDLE && forall i :: p <= i < q ==> line(i) == IDLE
  }

  /** The start token comes as the first byte that is not idle, before the last read that the timeout
      allows. */
  ghost predicate TokenAt(line: nat -> byte, p: nat, timeout: u16, q: nat) {
    FirstAt(line, p, q) && line(q) == START_TOKEN && q - p + 1 < Budget(timeout)
  }

  /** What follows a token that comes in time is this sector. */
  ghost predicate Sends(line: nat -> byte, p: nat, timeout: u16, sector: Sector) {
    forall q: nat :: TokenAt(line, p, timeout, q) ==> Stream(line, q + 1, SD_BLOCK_SIZE) == sector
  }

  /** How many bytes the wait may read: a timeout of zero wraps around before it is tested. */
  function Budget(timeout: u16): nat {
    if timeout == 0 then TWO16 else timeout
  }

  lemma FirstUnique(line: nat -> byte, p: nat, q: nat, r: nat)
    requires FirstAt(line, p, q) && FirstAt(line, p, r)
    ensures q == r
  {
  }

  /** On a line that is idle for k bytes and then is not: the token is there exactly if that byte is 0xFE and
      comes in time. A timeout of 0 stands for 65536 reads. */
  lemma TokenOnLine(line: nat -> byte, p: nat, k: nat, timeout: u16)
    requires (forall i :: p <= i < p + k ==> line(i) == 0xFF) && line(p + k) != 0xFF
    ensures (exists q :: TokenAt(line, p, timeout, q)) <==>
              line(p + k) == 0xFE && k + 1 < if timeout == 0 then 0x1_0000 else timeout
    ensures forall q: nat :: TokenAt(line, p, timeout, q) ==> q == p + k
  {
    assert FirstAt(line, p, p + k);
    forall q: nat | TokenAt(line, p, timeout, q) ensures q == p + k {
      FirstUnique(line, p, q, p + k);
    }
    if line(p + k) == 0xFE && k + 1 < (if timeout == 0 then 0x1_0000 else timeout) {
      assert TokenAt(line, p, timeout, p + k);
    }
  }

  /** The SPI master: what the card sends, and how much of it has been read. */
  class Spi {
    const line: nat -> byte
    var pos: nat

    constructor (line: nat -> byte, pos: nat)
      ensures this.line == line && this.pos == pos
    {
      this.line := line;
      this.pos := pos;
    }

    /** spi_read_byte, with the dummy byte that clocks the next one in. */
    method ReadByte() returns (b: byte)
      modifies this
      ensures b == line(old(pos)) && pos == old(pos) + 1
    {
      b := line(pos);
      pos := pos + 1;
    }

    /** The do-while loop that waits for the token. */
    method Wait(timeoutVal: u16) returns (timeout: u16, token: byte)
      modifies this
      ensures pos > old(pos)
      ensures timeout != 0 && token == START_TOKEN <==> exists q :: TokenAt(line, old(pos), timeoutVal, q)
      ensures timeout != 0 && token == START_TOKEN ==> TokenAt(line, old(pos), timeoutVal, pos - 1)
    {
      ghost var p, budget := pos, Budget(timeoutVal);
      token := ReadByte();
      timeout := (timeoutVal - 1) % TWO16;
      while token == IDLE && timeout > 0
        invariant p < pos && pos - p <= budget && timeout == budget - (pos - p) && token == line(pos - 1)
        invariant forall i :: p <= i < pos - 1 ==> line(i) == IDLE
        decreases timeout
      {
        token := ReadByte();
        timeout := timeout - 1;
      }
      if timeout != 0 && token == START_TOKEN {
        assert TokenAt(line, p, timeoutVal, pos - 1);
      }
      forall q | TokenAt(line, p, timeoutVal, q) ensures timeout != 0 && token == START_TOKEN {
        assert token != IDLE ==> q == pos - 1;
      }
    }

    /** n bytes, to the buffer. */
    method Receive(buffer: array<byte>, base: nat, n: nat)
      requires base + n <= buffer.Length
      modifies this, buffer
      ensures pos == old(pos) + n
      ensures buffer[..] == Splice(old(buffer[..]), base, Stream(line, old(pos), n))
    {
      var i := 0;
      while i < n
        invariant 0 <= i <= n && pos == old(pos) + i
        invariant buffer[..] == Splice(old(buffer[..]), base, Stream(line, old(pos), i))
      {
        StreamMore(line, old(pos), old(buffer[..]), base, i);
        buffer[base + i] := ReadByte();
        i := i + 1;
      }
    }

    /** n bytes, to nowhere. */
    method Discard(n: nat)
      modifies this
      ensures pos == old(pos) + n
    {
      var i := 0;
      while i < n
        invariant 0 <= i <= n && pos == old(pos) + i
      {
        var _ := ReadByte();
        i := i + 1;
      }
    }

    /** read_data_block: success exactly when the token comes in time; then the 512 bytes behind it, and
        the two bytes of the CRC are gone from the line. */
    method ReadDataBlock(buffer: array<byte>, base: nat, timeoutVal: u16) returns (ok: bool, ghost q: nat)
      requires base + SD_BLOCK_SIZE <= buffer.Length
      modifies this, buffer
      ensures ok <==> exists q :: TokenAt(line, old(pos), timeoutVal, q)
      ensures ok ==> TokenAt(line, old(pos), timeoutVal, q)
                     && buffer[..] == Splice(old(buffer[..]), base, Stream(line, q + 1, SD_BLOCK_SIZE))
                     && pos == q + 1 + SD_BLOCK_SIZE + 2
      ensures !ok ==> buffer[..] == old(buffer[..])
    {
      var timeout, token := Wait(timeoutVal);
      q := pos - 1;
      if timeout == 0 {
        return false, q;
      }
      if token != START_TOKEN {
        return false, q;
      }
      Receive(buffer, base, SD_BLOCK_SIZE);
      var _ := ReadByte();
      var _ := ReadByte();
      return true, q;
    }

    /** read_data_block_partial: success under the same condition; then `count` bytes from `offset` on. */
    method ReadDataBlockPartial(offset: u16, buffer: array<byte>, base: nat, count: u16, timeoutVal: u16)
      returns (ok: bool, ghost q: nat)
      requires base + count <= buffer.Length
      modifies this, buffer
      ensures ok <==> exists q :: TokenAt(line, old(pos), timeoutVal, q)
      ensures ok ==> TokenAt(line, old(pos), timeoutVal, q)
                     && buffer[..] == Splice(old(buffer[..]), base, Stream(line, q + 1 + offset, count))
                     && pos == q + 1 + Consumed(offset, count)
      ensures !ok ==> buffer[..] == old(buffer[..])
    {
      var timeout, token := Wait(timeoutVal);
      q := pos - 1;
      if timeout == 0 || token != START_TOKEN {
        return false, q;
      }
      Discard(offset);
      Receive(buffer, base, count);
      Discard(Rest(offset, count));
      return true, q;
    }

    /** sdReadPartialBlock, behind the command's response: if the card sends the sector behind its token,
        the caller gets that slice of the sector or nothing, as Card.ReadPartial of module Disk has it. */
    method SdReadPartialBlock(r1: byte, offset: u16, buffer: array<byte>, base: nat, count: u16, ghost sector: Sector)
      returns (ok: bool)
      requires offset + count <= SD_BLOCK_SIZE && base + count <= buffer.Length && Sends(line, pos, 0xFFFF, sector)
      modifies this, buffer
      ensures ok <==> r1 == 0 && exists q :: TokenAt(line, old(pos), 0xFFFF, q)
      ensures buffer[..] == if ok then Splice(old(buffer[..]), base, sector[offset..offset + count])
                            else old(buffer[..])
    {
      if r1 != 0x00 {
        return false;
      }
      ghost var q;
      ok, q := ReadDataBlockPartial(offset, buffer, base, count, 0xFFFF);
      if ok {
        StreamSlice(line, q + 1, SD_BLOCK_SIZE, offset, count);
      }
    }
  }

  /** The rest of the block and its CRC, as a 16-bit count. */
  function Rest(offset: u16, count: u16): u16 {
    (SD_BLOCK_SIZE - offset - count + 2) % TWO16
  }

  function Consumed(offset: u16, count: u16): nat {
    offset + count + Rest(offset, count)
  }

  /** A partial read drains the block exactly when what it asks for lies inside the block and its CRC;
      otherwise the count wraps around and it drains tens of thousands of bytes more. */
  lemma DrainsBlock(offset: u16, count: u16)
    ensures Consumed(offset, count) == 514 <==> offset + count <= 514
    ensures offset + count > 514 ==> Consumed(offset, count) >= 514 + 0x1_0000
  {
  }

  lemma StreamMore(line: nat -> byte, p: nat, m: seq<byte>, base: nat, i: nat)
    requires base + i < |m|
    ensures Splice(m, base, Stream(line, p, i))[base + i := line(p + i)] == Splice(m, base, Stream(line, p, i + 1))
  {
  }

  lemma StreamSlice(line: nat -> byte, p: nat, n: nat, o: nat, k: nat)
    requires o + k <= n
    ensures Stream(line, p, n)[o..o + k] == Stream(line, p + o, k)
  {
    var a, b := Stream(line, p, n)[o..o + k], Stream(line, p + o, k);
    forall i | 0 <= i < k ensures a[i] == b[i] {
      assert a[i] == line(p + (o + i));
    }
  }

  /** The same line read in both ways: the partial read succeeds exactly when the full one does, gives the
      slice of its block, and leaves the line at the same place. */
  method ReadBothWays(line: nat -> byte, p: nat, offset: u16, count: u16, timeoutVal: u16)
    returns (whole: (bool, seq<byte>, nat), part: (bool, seq<byte>, nat))
    requires offset + count <= SD_BLOCK_SIZE
    ensures whole.0 == part.0
    ensures whole.0 ==> |whole.1| == SD_BLOCK_SIZE && part.1 == whole.1[offset..offset + count] && whole.2 == part.2
  {
    ghost var q, q';
    whole, q := ReadWhole(line, p, timeoutVal);
    part, q' := ReadPart(line, p, offset, count, timeoutVal);
    if whole.0 {
      FirstUnique(line, p, q, q');
      DrainsBlock(offset, count);
      StreamSlice(line, q + 1, SD_BLOCK_SIZE, offset, count);
    }
  }

  method ReadWhole(line: nat -> byte, p: nat, timeoutVal: u16) returns (whole: (bool, seq<byte>, nat), ghost q: nat)
    ensures whole.0 <==> exists q :: TokenAt(line, p, timeoutVal, q)
    ensures whole.0 ==> TokenAt(line, p, timeoutVal, q)
    ensures whole.0 ==> whole.1 == Stream(line, q + 1, SD_BLOCK_SIZE) && whole.2 == q + 1 + SD_BLOCK_SIZE + 2
  {
    var spi := new Spi(line, p);
    var block := new byte[SD_BLOCK_SIZE];
    var ok;
    ok, q := spi.ReadDataBlock(block, 0, timeoutVal);
    whole := (ok, block[..], spi.pos);
  }

  method ReadPart(line: nat -> byte, p: nat, offset: u16, count: u16, timeoutVal: u16)
    returns (part: (bool, seq<byte>, nat), ghost q: nat)
    ensures part.0 <==> exists q :: TokenAt(line, p, timeoutVal, q)
    ensures part.0 ==> TokenAt(line, p, timeoutVal, q)
    ensures part.0 ==> part.1 == Stream(line, q + 1 + offset, count) && part.2 == q + 1 + Consumed(offset, count)
  {
    var spi := new Spi(line, p);
    var piece := new byte[count];
    var ok;
    ok, q := spi.ReadDataBlockPartial(offset, piece, 0, count, timeoutVal);
    part := (ok, piece[..], spi.pos);
  }
}

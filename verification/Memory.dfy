/** The two memory operations of the C library that the heap and the loader use (libc/src/string/memcpy.c,
    memset.c). The source hands memcpy to the DMA controller and waits for the transfer to end. */
module Memory {
  import opened Bytes

  function Zeros(n: nat): (s: seq<byte>)
    ensures |s| == n && forall i :: 0 <= i < n ==> s[i] == 0
  {
    seq(n, _ => 0)
  }

  /** memcpy between ranges that do not overlap: the bytes that stand at src are put at dst. */
  method MemCpy(mem: array<byte>, dst: nat, src: nat, n: nat, ghost bytes: seq<byte>)
    requires dst + n <= mem.Length && src + n <= mem.Length && bytes == mem[..][src..src + n]
    requires dst + n <= src || src + n <= dst
    modifies mem
    ensures mem[..] == Splice(old(mem[..]), dst, bytes)
  {
    forall i | 0 <= i < n {
      mem[dst + i] := mem[src + i];
    }
  }

  /** memset to zero. */
  method MemZero(mem: array<byte>, dst: nat, n: nat)
    requires dst + n <= mem.Length
    modifies mem
    ensures mem[..] == Splice(old(mem[..]), dst, Zeros(n))
  {
    var i := 0;
    while i < n
      invariant 0 <= i <= n
      invariant forall x :: 0 <= x < mem.Length ==> mem[x] == if dst <= x < dst + i then 0 else old(mem[x])
    {
      mem[dst + i] := 0;
      i := i + 1;
    }
  }
}

/** The C library's memory operations. */
module Memory {
  import opened Bytes

  method Memcpy(dst: array<byte>, at: nat, src: array<byte>, from: nat, n: nat)
    requires dst != src && at + n <= dst.Length && from + n <= src.Length
    modifies dst
    ensures dst[at..at + n] == src[from..from + n]
    ensures dst[..at + n] == old(dst[..at]) + src[from..from + n]
    ensures dst[at + n..] == old(dst[at + n..])
  {
    forall i | 0 <= i < n {
      dst[at + i] := src[from + i];
    }
    assert dst[at..at + n] == src[from..from + n];
    assert dst[..at + n] == dst[..at] + dst[at..at + n];
    assert dst[..at] == old(dst[..at]);
  }
}

/** How the rewriters sign the sections they build. */
module Signing {
  import opened Bytes
  import opened Crc32
  import opened CrcTable

  /** The checksum of the n bytes at from, kept in a wide accumulator. */
  method WideCrc(dest: array<byte>, from: nat, n: nat) returns (crc32: bv64)
    requires from + n <= dest.Length
    ensures WordBits(Low(crc32)) == Crc(dest[from..from + n])
  {
    crc32 := 0xffffffff;
    LowOnes();
    AllOnesWord();
    hide WordBits, Low, WideStep, Crc;
    assert dest[from..from + 0] == [];
    var i := 0;
    while i < n
      invariant 0 <= i <= n
      invariant WordBits(Low(crc32)) == Crc(dest[from..from + i])
    {
      WideStepFeeds(crc32, dest[from..from + i], dest[from + i]);
      assert dest[from..from + i] + [dest[from + i]] == dest[from..from + i + 1];
      crc32 := WideStep(crc32, dest[from + i]);
      i := i + 1;
    }
  }

  lemma LowOnes()
    ensures Low(0xffffffff) == 0xffffffff
  {
  }

  lemma WideStepFeeds(c: bv64, m: seq<byte>, b: byte)
    requires WordBits(Low(c)) == Crc(m)
    ensures WordBits(Low(WideStep(c, b))) == Crc(m + [b])
  {
    hide WordBits, Low, WideStep, Crc;
    WideStepIsStep(c, b);
    TableStepIsDivision(Low(c), b);
    CrcSnoc(m, b);
  }

  /** Write the checksum of the n bytes at from behind them: the whole leaves remainder zero. */
  method AppendCrc(dest: array<byte>, from: nat, n: nat)
    requires from + n + 4 <= dest.Length
    modifies dest
    ensures dest[..from + n] == old(dest[..from + n])
    ensures dest[from + n + 4..] == old(dest[from + n + 4..])
    ensures Crc(dest[from..from + n + 4]) == Zeros(32)
  {
    hide WordBits, Low, Crc, Signature;
    var crc32 := WideCrc(dest, from, n);
    ghost var m := dest[from..from + n];
    StoreWord(dest, from + n, crc32);
    SignatureBits(Low(crc32));
    SignedBytesLeaveNothing(m, Signature(Low(crc32)));
    assert dest[from..from + n] == dest[..from + n][from..];
    assert dest[from..from + n + 4] == m + Signature(Low(crc32));
  }

  /** Every message has a signature: four bytes after which the remainder is zero. */
  lemma SignatureOf(m: seq<byte>) returns (signature: seq<byte>)
    ensures |signature| == 4 && Crc(m + signature) == Zeros(32)
  {
    hide WordBits, Crc;
    var w := CrcWord(m);
    signature := Signature(w);
    SignatureBits(w);
    SignedBytesLeaveNothing(m, signature);
  }

  lemma {:induction false} CrcWord(m: seq<byte>) returns (w: bv32)
    ensures WordBits(w) == Crc(m)
  {
    hide *;
    if m == [] {
      w := 0xffffffff;
      AllOnesWord();
    } else {
      var c := CrcWord(m[..|m| - 1]);
      w := TableStep(c, m[|m| - 1]);
      NextByteFed(m, |m| - 1, c);
      assert m[..|m|] == m;
    }
  }

  method StoreWord(dest: array<byte>, at: nat, crc32: bv64)
    requires at + 4 <= dest.Length
    modifies dest
    ensures dest[..at] == old(dest[..at]) && dest[at + 4..] == old(dest[at + 4..])
    ensures dest[at..at + 4] == Signature(Low(crc32))
  {
    hide StoredByte, ByteAt, Low;
    dest[at] := StoredByte(crc32, 0);
    dest[at + 1] := StoredByte(crc32, 1);
    dest[at + 2] := StoredByte(crc32, 2);
    dest[at + 3] := StoredByte(crc32, 3);
    StoredByteIsSigned(crc32, 0);
    StoredByteIsSigned(crc32, 1);
    StoredByteIsSigned(crc32, 2);
    StoredByteIsSigned(crc32, 3);
  }
}

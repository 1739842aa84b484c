/**
 The 32-bit cyclic redundancy check of ISO/IEC 13818-1 Annex A.

 Specification: a message is a string of bits, a remainder a string of 32 bits (the
 coefficients of x^31 down to x^0), and every message bit is one step of division by the
 generator 0x04C11DB7.  The properties that section transport needs are proved of this form.
 The program instead keeps the remainder in a machine word and feeds whole bytes through a
 table; TableStepIsDivision proves that this is the same division.
 */
module Crc32 {
  import opened Bytes

  // ---------- bit-serial division ----------

  type Poly = p: seq<bool> | |p| == 32 witness seq(32, _ => false)

  const GENERATOR_0: seq<bool> := [false, false, false, false, false, true, false, false]
  const GENERATOR_1: seq<bool> := [true, true, false, false, false, false, false, true]
  const GENERATOR_2: seq<bool> := [false, false, false, true, true, true, false, true]
  const GENERATOR_3: seq<bool> := [true, false, true, true, false, true, true, true]

  /** The coefficients of x^31 ... x^0 in the generator: 0x04, 0xC1, 0x1D, 0xB7. */
  const GENERATOR: seq<bool> := GENERATOR_0 + GENERATOR_1 + GENERATOR_2 + GENERATOR_3

  /** Addition of polynomials over GF(2). */
  function Plus(a: seq<bool>, b: seq<bool>): (c: seq<bool>)
    requires |a| == |b|
    ensures |c| == |a| && forall i :: 0 <= i < |c| ==> c[i] == (a[i] != b[i])
  {
    seq(|a|, i requires 0 <= i < |a| => a[i] != b[i])
  }

  function Zeros(n: nat): seq<bool>
  {
    Repeat(false, n)
  }

  /** Take in one message bit: multiply by x and reduce by the generator. */
  function FeedBit(c: Poly, bit: bool): Poly
  {
    if c[0] != bit then Plus(c[1..] + [false], GENERATOR) else c[1..] + [false]
  }

  function Remainder(c: Poly, message: seq<bool>): Poly
    decreases |message|
  {
    if message == [] then c else Remainder(FeedBit(c, message[0]), message[1..])
  }

  /** The n most significant bits of a byte. */
  function TopOfByte(b: byte, n: nat): (s: seq<bool>)
    ensures |s| == n
    decreases n
  {
    if n == 0 then [] else [b >= 128] + TopOfByte(ShiftOut(b), n - 1)
  }

  /** b shifted left by one, the top bit lost. */
  function ShiftOut(b: byte): byte
  {
    if b >= 128 then 2 * b - 256 else 2 * b
  }

  function ByteBits(b: byte): (s: seq<bool>)
    ensures |s| == 8
  {
    TopOfByte(b, 8)
  }

  function MessageBits(m: seq<byte>): (s: seq<bool>)
    ensures |s| == 8 * |m|
  {
    if m == [] then [] else MessageBits(m[..|m| - 1]) + ByteBits(m[|m| - 1])
  }

  lemma {:induction false} RemainderAppend(c: Poly, m: seq<bool>, n: seq<bool>)
    ensures Remainder(c, m + n) == Remainder(Remainder(c, m), n)
    decreases |m|
  {
    if m == [] {
      assert m + n == n;
    } else {
      assert (m + n)[1..] == m[1..] + n;
      RemainderAppend(FeedBit(c, m[0]), m[1..], n);
    }
  }

  // ---------- division is linear ----------

  lemma FeedBitLinear(c: Poly, d: Poly, b: bool, e: bool)
    ensures FeedBit(Plus(c, d), b != e) == Plus(FeedBit(c, b), FeedBit(d, e))
  {
  }

  lemma {:induction false} RemainderLinear(c: Poly, d: Poly, m: seq<bool>, n: seq<bool>)
    requires |m| == |n|
    ensures Remainder(Plus(c, d), Plus(m, n)) == Plus(Remainder(c, m), Remainder(d, n))
    decreases |m|
  {
    if m != [] {
      FeedBitLinear(c, d, m[0], n[0]);
      assert Plus(m, n)[1..] == Plus(m[1..], n[1..]);
      RemainderLinear(FeedBit(c, m[0]), FeedBit(d, n[0]), m[1..], n[1..]);
    }
  }

  // ---------- a message followed by its remainder leaves nothing ----------

  lemma {:induction false} FeedOwnBits(c: Poly, k: nat)
    requires k <= 32
    ensures Remainder(c, c[..k]) == c[k..] + Zeros(k)
  {
    if k == 0 {
      assert c[0..] + Zeros(0) == c;
    } else {
      FeedOwnBits(c, k - 1);
      assert c[..k] == c[..k - 1] + [c[k - 1]];
      RemainderAppend(c, c[..k - 1], [c[k - 1]]);
      var d := Remainder(c, c[..k - 1]);
      assert Remainder(d, [d[0]]) == FeedBit(d, d[0]);
      assert d[1..] + [false] == c[k..] + Zeros(k);
    }
  }

  lemma SignedMessageLeavesNothing(c: Poly, m: seq<bool>)
    ensures Remainder(c, m + Remainder(c, m)) == Zeros(32)
  {
    var r := Remainder(c, m);
    RemainderAppend(c, m, r);
    FeedOwnBits(r, 32);
    assert r[..32] == r;
    assert r[32..] + Zeros(32) == Zeros(32);
  }

  // ---------- bursts ----------

  /** If feeding w into an all-zero remainder leaves nothing, and w has at most 32 bits, w is zero. */
  lemma {:induction false} ShortBurst(d: Poly, w: seq<bool>)
    requires |w| <= 32
    requires Remainder(d, w) == Zeros(32)
    ensures d[|w|..] == Zeros(32 - |w|)
    ensures forall i :: 0 <= i < |w| ==> w[i] == d[i]
    decreases |w|
  {
    if w != [] {
      ShortBurst(FeedBit(d, w[0]), w[1..]);
      hide FeedBit, Remainder;
      BurstShifted(d, w, FeedBit(d, w[0]));
    }
  }

  /** If the last bit fed leaves no trace at the low end, it was the leading coefficient. */
  lemma LastBitTells(d: Poly, b: bool)
    requires FeedBit(d, b)[31] == false
    ensures d[0] == b && FeedBit(d, b) == d[1..] + [false]
  {
  }

  lemma BurstShifted(d: Poly, w: seq<bool>, e: Poly)
    requires 0 < |w| <= 32 && e == FeedBit(d, w[0])
    requires e[|w| - 1..] == Zeros(33 - |w|) && forall i :: 0 <= i < |w| - 1 ==> w[1..][i] == e[i]
    ensures d[|w|..] == Zeros(32 - |w|)
    ensures forall i :: 0 <= i < |w| ==> w[i] == d[i]
  {
    assert e[31] == e[|w| - 1..][32 - |w|] == false;
    LastBitTells(d, w[0]);
    hide FeedBit;
    forall i | |w| <= i < 32 ensures d[i] == false {
      assert d[i] == e[i - 1] == e[|w| - 1..][i - |w|];
    }
    forall i | 0 <= i < |w| ensures w[i] == d[i] {
      if i > 0 {
        assert w[i] == w[1..][i - 1] == e[i - 1];
      }
    }
  }

  lemma {:induction false} ZerosKeepDifference(d: Poly, n: nat)
    requires Remainder(d, Zeros(n)) == Zeros(32)
    ensures d == Zeros(32)
    decreases n
  {
    if n > 0 {
      assert Zeros(n)[1..] == Zeros(n - 1);
      ZerosKeepDifference(FeedBit(d, false), n - 1);
      ShortBurst(d, [false]);
      assert Remainder(d, [false]) == FeedBit(d, false);
    }
  }

  lemma {:induction false} ZeroRemainder(n: nat)
    ensures Remainder(Zeros(32), Zeros(n)) == Zeros(32)
  {
    if n > 0 {
      assert Zeros(n)[1..] == Zeros(n - 1);
      assert Zeros(32)[1..] + [false] == Zeros(32);
      ZeroRemainder(n - 1);
    }
  }

  /** A burst of at most 32 bits that the division does not see is no burst. */
  lemma BurstLeavesTrace(before: nat, w: seq<bool>, after: nat)
    requires |w| <= 32
    requires Remainder(Zeros(32), (Zeros(before) + w) + Zeros(after)) == Zeros(32)
    ensures w == Zeros(|w|)
  {
    var z := Zeros(32);
    RemainderAppend(z, Zeros(before) + w, Zeros(after));
    ZerosKeepDifference(Remainder(z, Zeros(before) + w), after);
    RemainderAppend(z, Zeros(before), w);
    ZeroRemainder(before);
    ShortBurst(z, w);
  }

  lemma PlusSelf(a: seq<bool>)
    ensures Plus(a, a) == Zeros(|a|)
  {
  }

  lemma PlusWindow(p: seq<bool>, u: seq<bool>, v: seq<bool>, q: seq<bool>)
    requires |u| == |v|
    ensures Plus(p + u + q, p + v + q) == (Zeros(|p|) + Plus(u, v)) + Zeros(|q|)
  {
  }

  /**
   Two messages that differ only inside a window of at most 32 bits and have the same
   remainder are the same message: every burst error of at most 32 bits is detected.
   */
  lemma BurstDetected(c: Poly, p: seq<bool>, u: seq<bool>, v: seq<bool>, q: seq<bool>)
    requires |u| == |v| <= 32
    requires Remainder(c, p + u + q) == Remainder(c, p + v + q)
    ensures u == v
  {
    PlusSelf(c);
    PlusSelf(Remainder(c, p + u + q));
    RemainderLinear(c, c, p + u + q, p + v + q);
    PlusWindow(p, u, v, q);
    BurstLeavesTrace(|p|, Plus(u, v), |q|);
    forall i | 0 <= i < |u| ensures u[i] == v[i] {
      assert Plus(u, v)[i] == Zeros(|u|)[i];
    }
  }

  // ---------- byte messages ----------

  /** The remainder of a byte message, starting from all ones. */
  function Crc(m: seq<byte>): Poly
  {
    Remainder(Repeat(true, 32), MessageBits(m))
  }

  /** Nothing read yet leaves all ones. */
  lemma NothingRead()
    ensures Crc([]) == seq(32, _ => true)
  {
    assert MessageBits([]) == [];
  }

  lemma CrcSnoc(m: seq<byte>, b: byte)
    ensures Crc(m + [b]) == Remainder(Crc(m), ByteBits(b))
  {
    assert (m + [b])[..|m|] == m;
    RemainderAppend(Repeat(true, 32), MessageBits(m), ByteBits(b));
  }

  lemma MessageBitsSnoc(m: seq<byte>, b: byte)
    ensures MessageBits(m + [b]) == MessageBits(m) + ByteBits(b)
  {
    hide ByteBits;
    assert (m + [b])[..|m|] == m;
  }

  lemma {:induction false} MessageBitsAppend(m: seq<byte>, n: seq<byte>)
    ensures MessageBits(m + n) == MessageBits(m) + MessageBits(n)
  {
    if n == [] {
      assert m + n == m;
    } else {
      var past, b := n[..|n| - 1], n[|n| - 1];
      MessageBitsAppend(m, past);
      LastApart(n);
      MessageBitsSnoc(past, b);
      MessageBitsSnoc(m + past, b);
      hide *;
      Regrouped(m, past, [b]);
      Regrouped(MessageBits(m), MessageBits(past), ByteBits(b));
    }
  }

  lemma MessageBits4(b0: byte, b1: byte, b2: byte, b3: byte)
    ensures MessageBits([b0, b1, b2, b3]) == ByteBits(b0) + ByteBits(b1) + ByteBits(b2) + ByteBits(b3)
  {
    var s := [b0, b1, b2, b3];
    assert s[..3] == [b0, b1, b2] && s[..3][..2] == [b0, b1] && s[..3][..2][..1] == [b0];
    assert [b0][..0] == [];
    assert MessageBits([b0]) == ByteBits(b0);
    assert MessageBits([b0, b1]) == ByteBits(b0) + ByteBits(b1);
  }

  /** Bytes whose n top bits agree are less than 256 / 2^n apart. */
  lemma {:induction false} TopOfByteClose(a: byte, b: byte, n: nat, d: int)
    requires n <= 8 && d == [256, 128, 64, 32, 16, 8, 4, 2, 1][n]
    requires TopOfByte(a, n) == TopOfByte(b, n)
    ensures -d < a - b < d
    decreases n
  {
    if n != 0 {
      var s, t := TopOfByte(a, n), TopOfByte(b, n);
      assert s[0] == t[0] && s[1..] == t[1..];
      TopOfByteClose(ShiftOut(a), ShiftOut(b), n - 1, 2 * d);
    }
  }

  lemma AppendCancel<T>(a: seq<T>, b: seq<T>, c: seq<T>, d: seq<T>)
    requires |a| == |c| && a + b == c + d
    ensures a == c && b == d
  {
    assert a == (a + b)[..|a|] && c == (c + d)[..|a|];
    assert b == (a + b)[|a|..] && d == (c + d)[|a|..];
  }

  lemma SameButLast<T>(m: seq<T>, n: seq<T>)
    requires |m| == |n| > 0 && m[..|m| - 1] == n[..|m| - 1] && m[|m| - 1] == n[|m| - 1]
    ensures m == n
  {
    assert m == m[..|m| - 1] + [m[|m| - 1]];
  }

  lemma {:induction false} MessageBitsInjective(m: seq<byte>, n: seq<byte>)
    requires |m| == |n| && MessageBits(m) == MessageBits(n)
    ensures m == n
  {
    if m != [] {
      var k := |m| - 1;
      LastBits(m);
      LastBits(n);
      hide MessageBits, ByteBits;
      AppendCancel(MessageBits(m[..k]), ByteBits(m[k]), MessageBits(n[..k]), ByteBits(n[k]));
      MessageBitsInjective(m[..k], n[..k]);
      SameByte(m[k], n[k]);
      SameButLast(m, n);
    }
  }

  lemma LastBits(m: seq<byte>)
    requires m != []
    ensures MessageBits(m) == MessageBits(m[..|m| - 1]) + ByteBits(m[|m| - 1])
  {
    hide ByteBits;
  }

  lemma SameByte(a: byte, b: byte)
    requires ByteBits(a) == ByteBits(b)
    ensures a == b
  {
    hide TopOfByte;
    TopOfByteClose(a, b, 8, 1);
  }

  /** A message followed by four bytes that spell its remainder has remainder zero. */
  lemma SignedBytesLeaveNothing(m: seq<byte>, signature: seq<byte>)
    requires MessageBits(signature) == Crc(m)
    ensures Crc(m + signature) == Zeros(32)
  {
    MessageBitsAppend(m, signature);
    SignedMessageLeavesNothing(Repeat(true, 32), MessageBits(m));
  }

  /** Changing at most four consecutive bytes of a message changes its remainder. */
  lemma ByteBurstDetected(p: seq<byte>, u: seq<byte>, v: seq<byte>, q: seq<byte>)
    requires |u| == |v| <= 4
    requires Crc(p + u + q) == Crc(p + v + q)
    ensures u == v
  {
    MessageBitsAppend(p, u);
    MessageBitsAppend(p + u, q);
    MessageBitsAppend(p, v);
    MessageBitsAppend(p + v, q);
    BurstDetected(Repeat(true, 32), MessageBits(p), MessageBits(u), MessageBits(v), MessageBits(q));
    MessageBitsInjective(u, v);
  }
}

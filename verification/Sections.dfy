/** Transport stream packets and the sections they carry. */
module Sections {
  import opened Bytes
  import opened Crc32

  const TS_PACKET_SIZE: nat := 188
  const MAX_TS_SIZE: nat := 4096
  const BYTES_BFR_SEC_LEN: nat := 3
  const STUFFING_TABLE: byte := 0x72

  type Packet = p: seq<byte> | |p| == 188 witness Repeat(0, 188)

  // ---------- the packet header ----------

  function Pusi(p: Packet): bool
  {
    p[1] / 64 % 2 == 1
  }

  function Pid(p: Packet): nat
  {
    p[1] as int % 32 * 256 + p[2] as int
  }

  /** adaptation_field_control */
  function Afc(p: Packet): nat
  {
    p[3] / 16 % 4
  }

  function ContinuityCounter(p: Packet): (cc: nat)
    ensures cc < 16
  {
    p[3] % 16
  }

  // ---------- sections ----------

  function SectionLength(s: seq<byte>): nat
    requires |s| >= 3
  {
    s[1] as int % 16 * 256 + s[2] as int
  }

  /** The length of the whole section that starts with s. */
  function FullLength(s: seq<byte>): (n: nat)
    requires |s| >= 3
    ensures 3 <= n <= 4098
  {
    SectionLength(s) + BYTES_BFR_SEC_LEN
  }

  /** Stuffing tables carry no CRC; every other section must leave remainder zero. */
  ghost predicate Accepts(s: seq<byte>)
    requires |s| >= 3
  {
    s[0] == STUFFING_TABLE || Crc(s) == Zeros(32)
  }

  /** A complete section that fits the program's buffers and passes its check. */
  ghost predicate IsSection(s: seq<byte>)
  {
    3 <= |s| <= MAX_TS_SIZE && |s| == FullLength(s) && Accepts(s)
  }

  lemma SameLengthField(s: seq<byte>, t: seq<byte>)
    requires |s| >= 3 && |t| >= 3 && s[..3] == t[..3]
    ensures FullLength(s) == FullLength(t)
  {
    assert s[1] == s[..3][1] && s[2] == s[..3][2];
    assert t[1] == t[..3][1] && t[2] == t[..3][2];
  }

  /**
   Error detection.  Take an accepted section that carries a CRC and change any window of at
   most four consecutive bytes, keeping the length field and not turning the table into a
   stuffing table: the check rejects the result.
   */
  lemma CorruptionRejected(s: seq<byte>, t: seq<byte>, at: nat, width: nat)
    requires IsSection(s) && s[0] != STUFFING_TABLE
    requires |t| == |s| && FullLength(t) == FullLength(s) && t[0] != STUFFING_TABLE
    requires width <= 4 && at + width <= |s|
    requires s[..at] == t[..at] && s[at + width..] == t[at + width..]
    requires s != t
    ensures !Accepts(t)
  {
    var u, v := s[at..at + width], t[at..at + width];
    assert s == s[..at] + u + s[at + width..];
    assert t == s[..at] + v + s[at + width..];
    if Accepts(t) {
      ByteBurstDetected(s[..at], u, v, s[at + width..]);
      assert false;
    }
  }
}

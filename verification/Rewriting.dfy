/** What the table rewriters share: a packet that holds one signed section of their own making. */
module Rewriting {
  import opened Bytes
  import opened Crc32
  import opened Memory
  import opened Sections
  import opened Demux
  import opened DemuxComplete
  import opened Signing

  const TS_HEADER_LEN: nat := 5

  /** The packet's header: the start flag set, no pointer. */
  function TsHeader(buf: seq<byte>): (h: seq<byte>)
    requires |buf| >= TS_HEADER_LEN
    ensures |h| == TS_HEADER_LEN
  {
    [buf[0], if buf[1] / 64 % 2 == 1 then buf[1] else buf[1] + 64, buf[2], buf[3], 0]
  }

  /** The section's bytes with the length field set to n. */
  function WithLength(body: seq<byte>, n: nat): (b: seq<byte>)
    requires |body| >= 3
    ensures |b| == |body|
  {
    [body[0], body[1] / 16 * 16 + n / 256 % 16, n % 256] + body[3..]
  }

  /** The body with its length set, followed by a checksum that fits. */
  ghost predicate Sealed(section: seq<byte>, body: seq<byte>)
  {
    |body| >= 3 && |section| == |body| + 4 && section[..|body|] == WithLength(body, |body| + 1)
      && Crc(section) == Zeros(32)
  }

  /** A packet that carries one section and stuffing. */
  predicate CarriesOne(p: Packet, header: seq<byte>, section: seq<byte>)
  {
    |header| == TS_HEADER_LEN && |section| <= 183 && p == header + section + Repeat(0xff, 183 - |section|)
  }

  lemma SealedIsSection(section: seq<byte>, body: seq<byte>)
    requires Sealed(section, body) && |body| <= 179
    ensures IsSection(section) && |section| == |body| + 4
    ensures section[0] == body[0] && section[1] % 16 == 0
  {
    var b := WithLength(body, |body| + 1);
    assert section[0] == section[..|body|][0] == b[0];
    assert section[1] == section[..|body|][1] == b[1];
    assert section[2] == section[..|body|][2] == b[2];
  }

  lemma SealedByte(section: seq<byte>, body: seq<byte>, i: nat)
    requires Sealed(section, body) && 3 <= i < |body|
    ensures section[i] == body[i]
  {
    hide Crc;
    var head := section[..|body|];
    assert head[i] == section[i];
    assert WithLength(body, |body| + 1)[i] == body[3..][i - 3];
  }

  /** Behind the length field the section is the body. */
  lemma SealedTail(section: seq<byte>, body: seq<byte>, a: nat, b: nat)
    requires Sealed(section, body) && 3 <= a <= b <= |body|
    ensures b <= |section| && section[a..b] == body[a..b]
  {
    hide WithLength, Crc;
    var x, y := section[a..b], body[a..b];
    forall i | 0 <= i < b - a ensures x[i] == y[i] {
      SealedByte(section, body, a + i);
    }
  }

  /** Without an adaptation field in the header that is reused, the reassembler gets exactly the new section. */
  lemma OneDelivered(p: Packet, buf: seq<byte>, section: seq<byte>, body: seq<byte>, partial: Partial)
    requires |buf| == TS_PACKET_SIZE && Afc(buf) < 2
    requires Sealed(section, body) && |body| <= 179 && CarriesOne(p, TsHeader(buf), section)
    ensures Feed(partial, p) == Outcome(Idle, [section])
  {
    hide Crc;
    SealedIsSection(section, body);
    CarriedParts(p, TsHeader(buf), section);
    OnePacketAction(p);
    OneSection(p[5..], section, Pid(p), ContinuityCounter(p));
  }

  /** s is found in buf, from offset j on. */
  predicate Window(buf: seq<byte>, s: seq<byte>, j: nat)
  {
    j + |s| <= |buf| && buf[j..j + |s|] == s
  }

  /** A section that begins in the bytes is the first one, or begins after it. */
  lemma FirstOrLater(buf: seq<byte>, pid: nat, cc: nat, s: seq<byte>)
    requires s in Start(buf, pid, cc).done
    ensures |buf| >= 3 && |buf| >= FullLength(buf)
    ensures s == buf[..FullLength(buf)] || s in Start(buf[FullLength(buf)..], pid, cc).done
  {
  }

  /** Sections that begin in a packet are windows of its bytes. */
  lemma {:induction false} StartsWindows(buf: seq<byte>, pid: nat, cc: nat, s: seq<byte>) returns (j: nat)
    requires s in Start(buf, pid, cc).done
    ensures Window(buf, s, j)
    decreases |buf|
  {
    FirstOrLater(buf, pid, cc, s);
    var n := FullLength(buf);
    if s == buf[..n] {
      j := 0;
    } else {
      hide Start;
      var i := StartsWindows(buf[n..], pid, cc, s);
      WindowLater(buf, n, s, i);
      j := n + i;
    }
  }

  /** Sections do not occur again later in their own packet: they would be all stuffing. */
  lemma NoLaterWindow(p: Packet, h: seq<byte>, section: seq<byte>, a: nat)
    requires CarriesOne(p, h, section) && |section| >= 2 && section[1] != 0xff && a >= 6
    ensures !Window(p, section, a)
  {
    if Window(p, section, a) {
      AllStuffing(p, h, section, a, 1);
    }
  }

  lemma {:induction false} AllStuffing(p: Packet, h: seq<byte>, section: seq<byte>, a: nat, i: nat)
    requires CarriesOne(p, h, section) && a > TS_HEADER_LEN && Window(p, section, a) && i < |section|
    ensures section[i] == 0xff
    decreases |section| - i
  {
    var j := i + (a - TS_HEADER_LEN);
    assert section[i] == p[a..a + |section|][i] == p[TS_HEADER_LEN + j];
    if j < |section| {
      assert p[TS_HEADER_LEN + j] == section[j];
      AllStuffing(p, h, section, a, j);
    }
  }

  /** With an adaptation field the table id is read as the pointer. */
  lemma MisreadAction(p: Packet)
    requires Afc(p) >= 2 && Pusi(p) && p[4] == 0
    ensures !Classify(p).Continue?
    ensures Classify(p).Begin? ==> 6 + p[5] as nat <= 188 && Classify(p).body == p[6 + p[5] as nat..]
  {
  }

  lemma FinishedFromIdle(p: Packet)
    requires !Classify(p).Continue?
    ensures Feed(Idle, p).done
         == if Classify(p).Begin? then Start(Classify(p).body, Pid(p), ContinuityCounter(p)).done else []
  {
    if Classify(p).Begin? {
      var after := Start(Classify(p).body, Pid(p), ContinuityCounter(p)).done;
      assert [] + after == after;
    }
  }

  lemma WindowLater(p: seq<byte>, first: nat, s: seq<byte>, j: nat)
    requires first <= |p| && Window(p[first..], s, j)
    ensures Window(p, s, first + j)
  {
    assert p[first + j..first + j + |s|] == p[first..][j..j + |s|];
  }

  lemma HeaderKept(p: Packet, buf: seq<byte>, section: seq<byte>)
    requires |buf| == TS_PACKET_SIZE && CarriesOne(p, TsHeader(buf), section) && |section| >= 3
    ensures Afc(p) == Afc(buf) && Pusi(p) && p[4] == 0
  {
    CarriedParts(p, TsHeader(buf), section);
  }

  lemma SealedSecondByte(section: seq<byte>, body: seq<byte>)
    requires Sealed(section, body) && |body| <= 179
    ensures |section| >= 3 && section[1] != 0xff
  {
    SealedIsSection(section, body);
  }

  /** With an adaptation field the section is not delivered. */
  lemma NotDelivered(p: Packet, buf: seq<byte>, section: seq<byte>, body: seq<byte>)
    requires |buf| == TS_PACKET_SIZE && Afc(buf) >= 2
    requires Sealed(section, body) && |body| <= 179 && CarriesOne(p, TsHeader(buf), section)
    ensures section !in Feed(Idle, p).done
  {
    var h := TsHeader(buf);
    hide *;
    SealedSecondByte(section, body);
    HeaderKept(p, buf, section);
    MisreadAction(p);
    FinishedFromIdle(p);
    if Classify(p).Begin? {
      NoneStartsLater(p, h, section, Classify(p).body, 6 + p[5] as nat);
    }
  }

  lemma NoneStartsLater(p: Packet, h: seq<byte>, section: seq<byte>, body: seq<byte>, first: nat)
    requires CarriesOne(p, h, section) && |section| >= 2 && section[1] != 0xff
    requires 6 <= first <= 188 && body == p[first..]
    ensures section !in Start(body, Pid(p), ContinuityCounter(p)).done
  {
    hide *;
    if section in Start(body, Pid(p), ContinuityCounter(p)).done {
      var j := StartsWindows(body, Pid(p), ContinuityCounter(p), section);
      WindowLater(p, first, section, j);
      NoLaterWindow(p, h, section, first + j);
    }
  }

  /**
   Whatever was pending, the reassembler gets exactly the new section, if and only if the packet
   whose header is reused has no adaptation field: the header is copied without its adaptation
   field, so the table is read in its place.
   */
  lemma OneReassembled(p: Packet, buf: seq<byte>, section: seq<byte>, body: seq<byte>)
    requires |buf| == TS_PACKET_SIZE
    requires Sealed(section, body) && |body| <= 179 && CarriesOne(p, TsHeader(buf), section)
    ensures (forall partial :: Feed(partial, p) == Outcome(Idle, [section])) <==> Afc(buf) < 2
    ensures Afc(buf) >= 2 ==> section !in Feed(Idle, p).done
  {
    hide Crc, Feed;
    if Afc(buf) < 2 {
      forall partial ensures Feed(partial, p) == Outcome(Idle, [section]) {
        OneDelivered(p, buf, section, body, partial);
      }
    } else {
      NotDelivered(p, buf, section, body);
      assert section in [section];
    }
  }

  lemma CarriedParts(p: Packet, h: seq<byte>, section: seq<byte>)
    requires CarriesOne(p, h, section) && |section| >= 3
    ensures p[1] == h[1] && p[3] == h[3] && p[4] == h[4] && p[6] == section[1]
    ensures p[5..] == section + Repeat(0xff, 183 - |section|)
  {
  }

  lemma OnePacketAction(p: Packet)
    requires Afc(p) < 2 && Pusi(p) && p[4] == 0 && p[6] != 1
    ensures Classify(p) == Begin([], p[5..])
  {
    assert p[5..5] == [];
  }

  lemma OneSection(body: seq<byte>, section: seq<byte>, pid: nat, cc: nat)
    requires IsSection(section) && |section| <= |body| && body == section + Repeat(0xff, |body| - |section|)
    ensures Start(body, pid, cc) == Outcome(Idle, [section])
  {
    StartWhole(body, section, pid, cc);
    var after := body[|section|..];
    assert after != [] ==> after[0] == 0xff;
    assert [section] + [] == [section];
  }

  // ---------- finishing the packet ----------

  method SetLength(dest: array<byte>, pos: nat, ghost ts: seq<byte>, ghost body: seq<byte>)
    requires dest.Length == TS_PACKET_SIZE && 8 <= pos == 5 + |body| <= 184 && |ts| == 5 && dest[..pos] == ts + body
    modifies dest
    ensures dest[..pos] == ts + WithLength(body, |body| + 1)
  {
    assert body[1] == dest[..pos][6];
    var newSectionLength := pos - TS_HEADER_LEN + 1;
    dest[6] := dest[6] / 16 * 16 + newSectionLength / 256 % 16;
    dest[7] := newSectionLength % 256;
    assert forall i :: 8 <= i < pos ==> dest[i] == (ts + body)[i];
  }

  /** The packet that was built becomes the generated one. */
  method CopyPacket(dest: array<byte>, generated: array<byte>)
    requires dest != generated && dest.Length == generated.Length == TS_PACKET_SIZE
    modifies generated
    ensures generated[..] == dest[..]
  {
    Memcpy(generated, 0, dest, 0, TS_PACKET_SIZE);
    assert generated[..] == generated[0..TS_PACKET_SIZE] == dest[0..TS_PACKET_SIZE] == dest[..];
  }

  /** The checksum and the stuffing. */
  method SignAndPad(dest: array<byte>, pos: nat, ghost ts: seq<byte>, ghost body: seq<byte>)
    returns (ghost section: seq<byte>)
    requires dest.Length == TS_PACKET_SIZE && pos == 5 + |body| <= 184 && |ts| == 5
    requires dest[..pos] == ts + body
    modifies dest
    ensures CarriesOne(dest[..], ts, section)
    ensures |section| == |body| + 4 && section[..|body|] == body && Crc(section) == Zeros(32)
  {
    hide Crc;
    AppendCrc(dest, 5, pos - 5);
    section := dest[5..pos + 4];
    assert section[..|body|] == dest[..pos][5..] == (ts + body)[5..];
    ghost var signed := dest[..pos + 4];
    assert signed == dest[..pos] + dest[pos..pos + 4];
    assert signed == ts + section;
    forall i | pos + 4 <= i < TS_PACKET_SIZE {
      dest[i] := 0xff;
    }
    assert dest[..pos + 4] == signed;
    assert dest[..] == dest[..pos + 4] + dest[pos + 4..];
    assert dest[pos + 4..] == Repeat(0xff, 183 - |section|);
  }

  /** The section length, the checksum and the stuffing. */
  method Finish(dest: array<byte>, pos: nat, ghost ts: seq<byte>, ghost body: seq<byte>)
    returns (ghost section: seq<byte>)
    requires dest.Length == TS_PACKET_SIZE && 8 <= pos == 5 + |body| <= 184 && |ts| == 5 && dest[..pos] == ts + body
    modifies dest
    ensures CarriesOne(dest[..], ts, section) && Sealed(section, body)
  {
    hide WithLength, Crc;
    SetLength(dest, pos, ts, body);
    section := SignAndPad(dest, pos, ts, WithLength(body, |body| + 1));
  }

  /** Set the start flag and clear the pointer, in the packet at hand and in the copy. */
  method CopyTsHeader(buf: array<byte>, dest: array<byte>)
    requires buf != dest && buf.Length == TS_PACKET_SIZE && dest.Length == TS_PACKET_SIZE
    modifies buf, dest
    ensures dest[..5] == TsHeader(old(buf[..])) && buf[..] == TsHeader(old(buf[..])) + old(buf[5..])
  {
    if buf[1] / 64 % 2 == 0 {
      buf[1] := buf[1] + 64;
    }
    buf[4] := 0;
    Memcpy(dest, 0, buf, 0, TS_HEADER_LEN);
  }

  /** A table's header as it is sent: applicable now, the only section. */
  function OnlySection(head: seq<byte>): (h: seq<byte>)
    requires |head| >= 8
    ensures |h| == |head|
  {
    head[..5] + [head[5] / 2 * 2 + 1, 0, 0] + head[8..]
  }

  /** Change the stored table's header and copy it behind the packet header. */
  method CopyTableHeader(data: array<byte>, n: nat, dest: array<byte>)
    requires data != dest && 8 <= n <= data.Length && dest.Length == TS_PACKET_SIZE && n <= 183
    modifies data, dest
    ensures data[..] == OnlySection(old(data[..]))
    ensures dest[..5 + n] == old(dest[..5]) + OnlySection(old(data[..n]))
  {
    ghost var was := data[..];
    MakeCurrent(data);
    OnlySectionPrefix(was, n);
    assert was[..n] == old(data[..n]) && data[0..n] == data[..][..n];
    hide OnlySection;
    Memcpy(dest, TS_HEADER_LEN, data, 0, n);
  }

  method MakeCurrent(data: array<byte>)
    requires 8 <= data.Length
    modifies data
    ensures data[..] == OnlySection(old(data[..]))
  {
    data[5] := data[5] / 2 * 2 + 1;
    data[6] := 0;
    data[7] := 0;
  }

  lemma OnlySectionPrefix(data: seq<byte>, n: nat)
    requires 8 <= n <= |data|
    ensures OnlySection(data)[..n] == OnlySection(data[..n])
  {
  }
}

/** Filling datagrams: packets go out in full datagrams of seven, in order, none lost. */
module Datagrams {
  import opened Bytes
  import opened Sections
  import Layout

  const MAX_UDP_SIZE: nat := 1350
  const RTP_HEADER_LEN: nat := 12
  const PACKETS_PER_DATAGRAM: nat := 7

  /** Scrambled packets are dropped when asked to, unless the channel has no PMT PID. */
  predicate Kept(p: Packet, dontSendScrambled: bool, pmtPid: nat)
  {
    !(dontSendScrambled && p[3] / 64 > 0 && pmtPid != 0)
  }

  function KeptBytes(packets: seq<Packet>, dontSendScrambled: bool, pmtPid: nat): seq<byte>
  {
    if packets == [] then []
    else
      var p := packets[|packets| - 1];
      KeptBytes(packets[..|packets| - 1], dontSendScrambled, pmtPid)
      + if Kept(p, dontSendScrambled, pmtPid) then p else []
  }

  /** What was sent and what waits account for every kept byte, and every datagram is full. */
  ghost predicate Accounts(sent: seq<seq<byte>>, waiting: seq<byte>, kept: seq<byte>)
  {
    && Flatten(sent) + waiting == kept
    && (forall d :: d in sent ==> |d| == PACKETS_PER_DATAGRAM * TS_PACKET_SIZE)
    && |waiting| % TS_PACKET_SIZE == 0 && |waiting| < PACKETS_PER_DATAGRAM * TS_PACKET_SIZE
  }

  class Output {
    const buf: array<byte>
    const rtp: bool
    var nbBytes: nat
    ghost var packets: seq<Packet>
    ghost var sent: seq<seq<byte>>
    const dontSendScrambled: bool
    const pmtPid: nat

    ghost predicate Valid()
      reads this, buf
    {
      && buf.Length == MAX_UDP_SIZE && nbBytes <= MAX_UDP_SIZE
      && Accounts(sent, buf[..nbBytes], KeptBytes(packets, dontSendScrambled, pmtPid))
    }

    constructor (rtp: bool, dontSendScrambled: bool, pmtPid: nat)
      ensures Valid() && fresh(buf) && sent == [] && packets == []
      ensures this.rtp == rtp && this.dontSendScrambled == dontSendScrambled && this.pmtPid == pmtPid
    {
      this.rtp, this.dontSendScrambled, this.pmtPid := rtp, dontSendScrambled, pmtPid;
      buf := new byte[MAX_UDP_SIZE](_ => 0);
      nbBytes, sent, packets := 0, [], [];
    }

    /** One packet; the datagram returned is the one handed to the sockets, if the buffer is full. */
    method Fill(packet: Packet) returns (datagram: Option<seq<byte>>)
      requires Valid()
      modifies this`nbBytes, this`packets, this`sent, buf
      ensures Valid() && packets == old(packets) + [packet]
      ensures sent == old(sent) + if datagram.Some? then [datagram.value] else []
      ensures datagram.Some? ==> |datagram.value| == 1316 && nbBytes == 0
    {
      hide KeptBytes, Flatten;
      Keep(packet);
      datagram := None;
      if (!rtp && nbBytes + TS_PACKET_SIZE > MAX_UDP_SIZE)
        || (rtp && nbBytes + RTP_HEADER_LEN + TS_PACKET_SIZE > MAX_UDP_SIZE) {
        datagram := Some(buf[..nbBytes]);
        ghost var now := buf[..nbBytes];
        Handed(sent, now, KeptBytes(packets, dontSendScrambled, pmtPid));
        sent := sent + [now];
        nbBytes := 0;
      }
    }

    /** The packet goes behind those waiting, if it is kept. */
    method Keep(packet: Packet)
      requires Valid()
      modifies this`nbBytes, this`packets, buf
      ensures packets == old(packets) + [packet]
      ensures nbBytes <= buf.Length
      ensures Filling(sent, buf[..nbBytes], KeptBytes(packets, dontSendScrambled, pmtPid))
    {
      hide KeptBytes, Flatten;
      ghost var waiting, kept := buf[..nbBytes], KeptBytes(packets, dontSendScrambled, pmtPid);
      KeptSnoc(packets, packet, dontSendScrambled, pmtPid);
      packets := packets + [packet];
      if Kept(packet, dontSendScrambled, pmtPid) {
        hide Kept;
        forall i: nat | i < 188 {
          buf[nbBytes + i] := packet[i];
        }
        nbBytes := nbBytes + TS_PACKET_SIZE;
        assert buf[..nbBytes] == waiting + packet;
        Waits(sent, waiting, packet, kept);
      } else {
        assert kept + [] == kept;
      }
    }
  }

  /** As Accounts, when the last datagram may be full. */
  ghost predicate Filling(sent: seq<seq<byte>>, waiting: seq<byte>, kept: seq<byte>)
  {
    && Flatten(sent) + waiting == kept
    && (forall d :: d in sent ==> |d| == PACKETS_PER_DATAGRAM * TS_PACKET_SIZE)
    && |waiting| % TS_PACKET_SIZE == 0 && |waiting| <= PACKETS_PER_DATAGRAM * TS_PACKET_SIZE
  }

  lemma Waits(sent: seq<seq<byte>>, waiting: seq<byte>, p: Packet, kept: seq<byte>)
    requires Accounts(sent, waiting, kept)
    ensures Filling(sent, waiting + p, kept + p)
  {
    hide Flatten;
    Regrouped(Flatten(sent), waiting, p);
  }

  /** A full buffer becomes a datagram. */
  lemma Handed(sent: seq<seq<byte>>, now: seq<byte>, kept: seq<byte>)
    requires Filling(sent, now, kept) && |now| == PACKETS_PER_DATAGRAM * TS_PACKET_SIZE
    ensures Accounts(sent + [now], [], kept)
  {
    hide Flatten;
    FlattenSnoc(sent, now);
  }

  lemma KeptSnoc(packets: seq<Packet>, p: Packet, dontSendScrambled: bool, pmtPid: nat)
    ensures KeptBytes(packets + [p], dontSendScrambled, pmtPid)
         == KeptBytes(packets, dontSendScrambled, pmtPid) + if Kept(p, dontSendScrambled, pmtPid) then p else []
  {
    assert (packets + [p])[..|packets|] == packets;
  }

  // ---------- which packets are kept ----------

  /** Unless scrambled packets are not to be sent, and there is a PMT PID, every packet is kept. */
  lemma {:induction false} AllKept(packets: seq<Packet>, dontSendScrambled: bool, pmtPid: nat)
    requires !dontSendScrambled || pmtPid == 0
    ensures KeptBytes(packets, dontSendScrambled, pmtPid) == Flatten(packets)
  {
    if packets != [] {
      AllKept(packets[..|packets| - 1], dontSendScrambled, pmtPid);
      LastApart(packets);
      FlattenSnoc(packets[..|packets| - 1], packets[|packets| - 1]);
    }
  }

  /** The packets whose control bits say that they are not scrambled. */
  function InTheClear(fs: seq<Layout.Fields>): seq<Layout.Fields>
  {
    if fs == [] then []
    else InTheClear(fs[..|fs| - 1]) + if fs[|fs| - 1].scrambling == 0 then [fs[|fs| - 1]] else []
  }

  /** Otherwise exactly the packets that are not scrambled are. */
  lemma {:induction false} ClearKept(fs: seq<Layout.Fields>, pmtPid: nat)
    requires pmtPid != 0
    ensures KeptBytes(Layout.PackedAll(fs), true, pmtPid) == Flatten(Layout.PackedAll(InTheClear(fs)))
    decreases |fs|
  {
    if fs != [] {
      var past, f := fs[..|fs| - 1], fs[|fs| - 1];
      var own := InTheClear(past);
      ClearKept(past, pmtPid);
      Layout.FieldsRead(f);
      Layout.PackedAllSnoc(fs);
      assert Kept(Layout.Packed(f), true, pmtPid) <==> f.scrambling == 0;
      assert InTheClear(fs) == own + if f.scrambling == 0 then [f] else [];
      hide *;
      KeptSnoc(Layout.PackedAll(past), Layout.Packed(f), true, pmtPid);
      if f.scrambling == 0 {
        assert (own + [f])[..|own + [f]| - 1] == own;
        Layout.PackedAllSnoc(own + [f]);
        FlattenSnoc(Layout.PackedAll(own), Layout.Packed(f));
      } else {
        assert own + [] == own;
        Nothing(Flatten(Layout.PackedAll(own)));
      }
    }
  }

  lemma Nothing(bytes: seq<byte>)
    ensures bytes + [] == bytes
  {
  }
}

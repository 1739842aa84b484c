/**
 The EIT sender cuts a stored section into packets; feeding them to the reassembler gives the
 section back, unless a packet is taken for PES.
 */
module EitSend {
  import opened Bytes
  import opened Memory
  import opened Sections
  import Layout
  import opened Demux
  import opened DemuxComplete
  import opened Signing

  const EIT_PID: byte := 18

  // ---------- cutting a section ----------

  /** The header of a sent packet; the first one has a pointer field of zero. */
  function Header(first: bool, cc: nat): (h: seq<byte>)
    requires cc < 16
    ensures |h| == if first then 5 else 4
  {
    [0x47, if first then 0x40 else 0, EIT_PID, 16 + cc] + if first then [0] else []
  }

  function Room(first: bool): nat
  {
    if first then 183 else 184
  }

  /** The packet that carries the beginning of data. */
  function OnePacket(data: seq<byte>, first: bool, cc: nat): Packet
    requires cc < 16
  {
    if |data| >= Room(first) then Header(first, cc) + data[..Room(first)]
    else Header(first, cc) + data + Repeat(0xff, Room(first) - |data|)
  }

  function Packetise(data: seq<byte>, first: bool, cc: nat): (ps: seq<Packet>)
    requires cc < 16
    decreases |data|
  {
    if data == [] then []
    else
      [OnePacket(data, first, cc)]
      + Packetise(if |data| >= Room(first) then data[Room(first)..] else [], false, (cc + 1) % 16)
  }

  method FillPacket(sendBuf: array<byte>, data: array<byte>, from: nat, n: nat, first: bool, cc: nat,
    ghost left: seq<byte>)
    requires sendBuf.Length == TS_PACKET_SIZE && sendBuf != data && cc < 16
    requires from + n <= data.Length && left == data[from..from + n]
    modifies sendBuf
    ensures sendBuf[..] == OnePacket(left, first, cc)
  {
    forall i | 0 <= i < TS_PACKET_SIZE {
      sendBuf[i] := 0;
    }
    var headerLen := FillHeader(sendBuf, first, cc);
    ghost var h := sendBuf[..headerLen];
    var room := TS_PACKET_SIZE - headerLen;
    assert data[from..from + Min(n, room)] == left[..Min(n, room)];
    Memcpy(sendBuf, headerLen, data, from, Min(n, room));
    assert sendBuf[..headerLen + Min(n, room)] == h + left[..Min(n, room)];
    if n >= room {
      assert sendBuf[..] == sendBuf[..headerLen + Min(n, room)];
    } else {
      assert left[..n] == left;
      Pad(sendBuf, headerLen + n, h + left);
    }
  }

  /** The header bytes of a cleared buffer. */
  method FillHeader(sendBuf: array<byte>, first: bool, cc: nat) returns (headerLen: nat)
    requires sendBuf.Length == TS_PACKET_SIZE && cc < 16 && forall i :: 0 <= i < TS_PACKET_SIZE ==> sendBuf[i] == 0
    modifies sendBuf
    ensures headerLen == |Header(first, cc)| && sendBuf[..headerLen] == Header(first, cc)
  {
    sendBuf[0] := 0x47;
    headerLen := 4;
    if first {
      sendBuf[1] := 0x40;
      headerLen := 5;
    }
    sendBuf[2] := EIT_PID;
    sendBuf[3] := 16 + cc;
  }

  method Pad(sendBuf: array<byte>, at: nat, ghost filled: seq<byte>)
    requires at <= sendBuf.Length && sendBuf[..at] == filled
    modifies sendBuf
    ensures sendBuf[..] == filled + Repeat(0xff, sendBuf.Length - at)
  {
    forall i | at <= i < sendBuf.Length {
      sendBuf[i] := 0xff;
    }
    assert sendBuf[..at] == filled;
  }

  /** Send the section held in data[..len]: the packets go out in order, the counter follows. */
  method SendSection(data: array<byte>, len: nat, eitCc0: nat) returns (out: seq<Packet>, eitCc: nat)
    requires len <= data.Length && eitCc0 < 16
    ensures out == Packetise(data[..len], true, eitCc0)
    ensures eitCc == (eitCc0 + |out|) % 16
  {
    hide OnePacket, Packetise;
    ghost var section, all := data[..len], Packetise(data[..len], true, eitCc0);
    out, eitCc := [], eitCc0;
    var dataLeftToSend: nat, sent: nat := len, 0;
    var sendBuf := new byte[TS_PACKET_SIZE];
    while dataLeftToSend > 0
      invariant sent + dataLeftToSend == len && eitCc < 16 && data[..len] == section
      invariant eitCc == (eitCc0 + |out|) % 16
      invariant out + Packetise(section[sent..], sent == 0, eitCc) == all
    {
      ghost var left, first := section[sent..], sent == 0;
      assert left == data[sent..sent + dataLeftToSend];
      FillPacket(sendBuf, data, sent, dataLeftToSend, sent == 0, eitCc, left);
      var packet := sendBuf[..];
      Unroll(out, left, first, eitCc);
      var room := if sent == 0 then TS_PACKET_SIZE - 5 else TS_PACKET_SIZE - 4;
      if dataLeftToSend >= room {
        sent := sent + room;
        dataLeftToSend := dataLeftToSend - room;
        assert left[room..] == section[sent..];
      } else {
        sent := sent + dataLeftToSend;
        dataLeftToSend := 0;
        assert section[sent..] == [];
      }
      eitCc := (eitCc + 1) % 16;
      out := out + [packet];
    }
    NothingToSend(out, section[sent..], eitCc);
  }

  lemma NothingToSend(out: seq<Packet>, data: seq<byte>, cc: nat)
    requires data == [] && cc < 16
    ensures out + Packetise(data, true, cc) == out == out + Packetise(data, false, cc)
  {
  }

  lemma Unroll(out: seq<Packet>, data: seq<byte>, first: bool, cc: nat)
    requires cc < 16 && data != []
    ensures out + Packetise(data, first, cc)
         == (out + [OnePacket(data, first, cc)])
            + Packetise(if |data| >= Room(first) then data[Room(first)..] else [], false, (cc + 1) % 16)
  {
  }

  // ---------- what a sent packet means to the reassembler ----------

  lemma FirstPacket(data: seq<byte>, cc: nat)
    requires data != [] && cc < 16
    ensures var p := Packetise(data, true, cc)[0];
            && Pid(p) == EIT_PID as nat && ContinuityCounter(p) == cc
            && (StartsLikePes(p) ==> data[0] == 0)
            && (!StartsLikePes(p) ==>
                  Classify(p) == Begin([], if |data| >= 183 then data[..183] else data + Repeat(0xff, 183 - |data|)))
  {
    var p := Packetise(data, true, cc)[0];
    assert p[0] == 0x47 && p[1] == 0x40 && p[2] == EIT_PID && p[3] == 16 + cc && p[4] == 0 && p[5] == data[0];
    assert p[5..5] == [];
    assert p[5..] == if |data| >= 183 then data[..183] else data + Repeat(0xff, 183 - |data|);
  }

  lemma ContinuationHeader(p: Packet, cc: nat)
    requires cc < 16 && p[1] == 0 && p[2] == EIT_PID && p[3] == 16 + cc
    ensures !Pusi(p) && Pid(p) == EIT_PID as nat && Afc(p) == 1 && ContinuityCounter(p) == cc
    ensures Classify(p) == if StartsLikePes(p) then Skip else Continue(p[4..])
  {
  }

  /** The payload of a continuation packet. */
  function Payload(rest: seq<byte>): (p: seq<byte>)
    ensures |p| == 184
  {
    if |rest| >= 184 then rest[..184] else rest + Repeat(0xff, 184 - |rest|)
  }

  lemma NextPacket(data: seq<byte>, cc: nat)
    requires data != [] && cc < 16
    ensures var p := Packetise(data, false, cc)[0];
            && Pid(p) == EIT_PID as nat && ContinuityCounter(p) == cc
            && (StartsLikePes(p) ==> Classify(p) == Skip)
            && (!StartsLikePes(p) ==>
                  Classify(p) == Continue(Payload(data)))
  {
    hide Classify, StartsLikePes;
    var p := Packetise(data, false, cc)[0];
    assert p[..4] == [0x47, 0, EIT_PID, 16 + cc];
    assert p[1] == p[..4][1] && p[2] == p[..4][2] && p[3] == p[..4][3];
    ContinuationHeader(p, cc);
    assert p[4..] == Payload(data);
  }

  /** No packet cut from data is mistaken for PES. */
  predicate Clear(data: seq<byte>, first: bool, cc: nat)
    requires cc < 16
  {
    forall p :: p in Packetise(data, first, cc) ==> !StartsLikePes(p)
  }

  lemma ClearStep(data: seq<byte>, first: bool, cc: nat)
    requires data != [] && cc < 16
    ensures var ps := Packetise(data, first, cc);
            var rest := if |data| >= Room(first) then data[Room(first)..] else [];
            && ps[1..] == Packetise(rest, false, (cc + 1) % 16)
            && (Clear(data, first, cc) <==> !StartsLikePes(ps[0]) && Clear(rest, false, (cc + 1) % 16))
  {
    var ps := Packetise(data, first, cc);
    assert ps == [ps[0]] + ps[1..];
  }

  // ---------- which sections are clear ----------

  /** The bytes 00 00 01 at position i. */
  predicate PesAt(data: seq<byte>, i: nat)
  {
    i + 3 <= |data| && data[i] == 0 && data[i + 1] == 0 && data[i + 2] == 1
  }

  /** They stand where packet number k of those that begin at from is cut. */
  predicate PesAtCut(data: seq<byte>, from: nat, k: nat)
  {
    PesAt(data, from + 184 * k)
  }

  lemma ContinuationPes(data: seq<byte>, cc: nat)
    requires cc < 16 && data != []
    ensures StartsLikePes(Packetise(data, false, cc)[0]) <==> PesAtCut(data, 0, 0)
  {
    var p := OnePacket(data, false, cc);
    assert p[4..] == Payload(data);
    assert p[4] == p[4..][0] && p[5] == p[4..][1] && p[6] == p[4..][2];
  }

  lemma FirstPes(data: seq<byte>, cc: nat)
    requires cc < 16 && |data| >= 2
    ensures StartsLikePes(Packetise(data, true, cc)[0]) <==> data[0] == 0 && data[1] == 1
  {
    var p := OnePacket(data, true, cc);
    assert p[4] == 0 && p[5] == data[0] && p[6] == data[1];
  }

  /** The rest of a section is clear if and only if none of its packets begins with 00 00 01. */
  lemma {:induction false} RestClearExactlyWhen(data: seq<byte>, cc: nat)
    requires cc < 16
    ensures Clear(data, false, cc) <==> forall k: nat :: !PesAtCut(data, 0, k)
    decreases |data|
  {
    if data != [] {
      hide Packetise, StartsLikePes;
      var rest := if |data| >= 184 then data[184..] else [];
      ClearStep(data, false, cc);
      ContinuationPes(data, cc);
      RestClearExactlyWhen(rest, (cc + 1) % 16);
      hide Clear;
      forall k: nat ensures PesAtCut(rest, 0, k) <==> PesAtCut(data, 0, k + 1) {
      }
      assert forall k: nat :: k > 0 ==> (PesAtCut(data, 0, k) <==> PesAtCut(rest, 0, k - 1));
    }
  }

  /** A section is clear if and only if 00 00 01 stands at none of the places 183, 367, 551 ... where it is cut. */
  lemma ClearExactlyWhen(s: seq<byte>, cc: nat)
    requires cc < 16 && |s| >= 2 && s[0] != 0
    ensures Clear(s, true, cc) <==> forall k: nat :: !PesAtCut(s, 183, k)
  {
    hide Packetise, StartsLikePes;
    var rest := if |s| >= 183 then s[183..] else [];
    ClearStep(s, true, cc);
    FirstPes(s, cc);
    RestClearExactlyWhen(rest, (cc + 1) % 16);
    hide Clear;
    forall k: nat ensures PesAtCut(rest, 0, k) <==> PesAtCut(s, 183, k) {
    }
  }

  /** The body of a current schedule section whose second packet begins with 00 00 01. */
  function PesLikeBody(): (b: seq<byte>)
    ensures |b| == 300
  {
    [0x50, 1, 45, 0, 1, 1] + Repeat(0, 179) + [1] + Repeat(0, 114)
  }

  /** There is a section the reassembler accepts and never gets back from the sender. */
  lemma SectionNotCarried(partial: Partial, cc: nat) returns (s: seq<byte>)
    requires cc < 16
    ensures IsSection(s) && s[0] == 0x50 && !Clear(s, true, cc)
    ensures FeedAll(partial, Packetise(s, true, cc)).done == []
  {
    var b := PesLikeBody();
    var signature := SignatureOf(b);
    s := b + signature;
    assert s[0] == 0x50 && s[1] == 1 && s[2] == 45;
    assert b[183] == 0 && b[184] == 0 && b[185] == 1;
    assert s[183] == 0 && s[184] == 0 && s[185] == 1;
    assert PesAtCut(s, 183, 0);
    ClearExactlyWhen(s, cc);
    SendReassemble(partial, s, cc);
  }

  // ---------- the round trip ----------

  lemma PayloadContinues(have: nat, rest: seq<byte>)
    requires rest != []
    ensures Continues(Payload(rest), rest)
    ensures After(Cut(have, rest), 184) == if |rest| > 184 then Cut(have + 184, rest[184..]) else NO_CUT
  {
    if |rest| < 184 {
      assert Payload(rest)[..|rest|] == rest && Payload(rest)[|rest|..] == Repeat(0xff, 184 - |rest|);
    }
  }

  lemma ContinuationCarries(ps: seq<Packet>, payload: seq<byte>, pid: nat, cc: nat, w: Cut)
    requires ps != [] && Pid(ps[0]) == pid && ContinuityCounter(ps[0]) == cc && Classify(ps[0]) == Continue(payload)
    requires w.rest != [] && |payload| >= 3 && Continues(payload, w.rest)
    requires Carries(ps[1..], pid, (cc + 1) % 16, After(w, |payload|), [])
    ensures Carries(ps, pid, cc, w, [])
  {
  }

  /** Continuation packets that are all clear carry the rest of the section. */
  lemma {:induction false} RestCarried(have: nat, rest: seq<byte>, cc: nat)
    requires cc < 16 && Clear(rest, false, cc)
    ensures Carries(Packetise(rest, false, cc), EIT_PID as nat, cc, if rest == [] then NO_CUT else Cut(have, rest), [])
    decreases |rest|
  {
    if rest != [] {
      NextPacket(rest, cc);
      ClearStep(rest, false, cc);
      PayloadContinues(have, rest);
      var rest' := if |rest| >= 184 then rest[184..] else [];
      RestCarried(have + 184, rest', (cc + 1) % 16);
      hide *;
      ContinuationCarries(Packetise(rest, false, cc), Payload(rest), EIT_PID as nat, cc, Cut(have, rest));
    }
  }

  lemma FillCut(s: seq<byte>, n: nat)
    requires 3 <= |s| && 0 < n < |s|
    ensures Fill(s[..n], [s]) == Some(Filled([], Cut(n, s[n..]), []))
  {
    var ss := [s];
    assert ss[0] == s && ss[1..] == [];
  }

  lemma FillPadded(s: seq<byte>, n: nat)
    requires 3 <= |s|
    ensures Fill(s + Repeat(0xff, n), [s]) == Some(Filled([s], NO_CUT, []))
  {
    var ss, body := [s], s + Repeat(0xff, n);
    assert ss[0] == s && ss[1..] == [];
    assert body[..|s|] == s && body[|s|..] == Repeat(0xff, n);
  }

  lemma SectionCarried(s: seq<byte>, cc: nat)
    requires cc < 16 && IsSection(s) && Clear(s, true, cc)
    ensures Carries(Packetise(s, true, cc), EIT_PID as nat, cc, NO_CUT, [s])
  {
    hide Packetise, Clear, Carries;
    if |s| > 183 {
      LongCarried(s, cc);
    } else {
      ShortCarried(s, cc);
    }
  }

  lemma LongCarried(s: seq<byte>, cc: nat)
    requires cc < 16 && |s| > 183 && Clear(s, true, cc)
    ensures Carries(Packetise(s, true, cc), EIT_PID as nat, cc, NO_CUT, [s])
  {
    var ps, next, rest := Packetise(s, true, cc), (cc + 1) % 16, s[183..];
    FirstPacket(s, cc);
    ClearStep(s, true, cc);
    FillCut(s, 183);
    hide Packetise, Clear, StartsLikePes, Classify, Carries, Fill;
    RestCarried(183, rest, next);
    FirstCarries(ps, s[..183], EIT_PID as nat, cc, [s]);
  }

  lemma ShortCarried(s: seq<byte>, cc: nat)
    requires cc < 16 && 3 <= |s| <= 183 && Clear(s, true, cc)
    ensures Carries(Packetise(s, true, cc), EIT_PID as nat, cc, NO_CUT, [s])
  {
    var ps, next := Packetise(s, true, cc), (cc + 1) % 16;
    FirstPacket(s, cc);
    ClearStep(s, true, cc);
    FillPadded(s, 183 - |s|);
    OnlyPacket(s, cc);
    hide Packetise, Clear, StartsLikePes, Classify, Carries, Fill;
    NothingMore(EIT_PID as nat, next);
    FirstCarries(ps, s + Repeat(0xff, 183 - |s|), EIT_PID as nat, cc, [s]);
  }

  lemma FirstCarries(ps: seq<Packet>, body: seq<byte>, pid: nat, cc: nat, ss: seq<seq<byte>>)
    requires ps != [] && Pid(ps[0]) == pid && ContinuityCounter(ps[0]) == cc && Classify(ps[0]) == Begin([], body)
    requires Fill(body, ss).Some?
    requires Carries(ps[1..], pid, (cc + 1) % 16, Fill(body, ss).value.cut, Fill(body, ss).value.left)
    ensures Carries(ps, pid, cc, NO_CUT, ss)
  {
    hide Fill;
  }

  lemma NothingMore(pid: nat, cc: nat)
    ensures Carries([], pid, cc, NO_CUT, [])
  {
  }

  /** A section that fits one packet, which is all that is sent. */
  lemma OnlyPacket(s: seq<byte>, cc: nat)
    requires 0 < |s| <= 183 && cc < 16
    ensures Packetise(s, true, cc)[1..] == []
    ensures (if |s| >= 183 then s[..183] else s + Repeat(0xff, 183 - |s|)) == s + Repeat(0xff, 183 - |s|)
  {
    hide OnePacket;
  }

  /** A packet of the section has been skipped: what is left can no longer complete it. */
  lemma {:induction false} ShortNeverFills(partial: Partial, rest: seq<byte>, cc: nat, n: nat)
    requires cc < 16 && n <= MAX_TS_SIZE
    requires partial.Collecting? ==> |partial.data| >= 3 && FullLength(partial.data) == n
    requires partial.Collecting? && rest != [] ==> |partial.data| + |rest| + 184 <= n
    ensures FeedAll(partial, Packetise(rest, false, cc)).done == []
    decreases |rest|
  {
    if rest != [] {
      var ps := Packetise(rest, false, cc);
      ClearStep(rest, false, cc);
      FeedAllCons(partial, ps);
      ShortStep(partial, rest, cc, n);
      hide *;
      ShortNeverFills(Feed(partial, ps[0]).partial, if |rest| >= 184 then rest[184..] else [], (cc + 1) % 16, n);
    }
  }

  /** What is collected is too short for what is left, before and after the packet. */
  lemma ShortStep(partial: Partial, rest: seq<byte>, cc: nat, n: nat)
    requires cc < 16 && n <= MAX_TS_SIZE && rest != []
    requires partial.Collecting? ==>
      |partial.data| >= 3 && FullLength(partial.data) == n && |partial.data| + |rest| + 184 <= n
    ensures var out, left := Feed(partial, Packetise(rest, false, cc)[0]), if |rest| >= 184 then |rest| - 184 else 0;
      && out.done == []
      && (out.partial.Collecting? ==>
            && |out.partial.data| >= 3 && FullLength(out.partial.data) == n
            && (left > 0 ==> |out.partial.data| + left + 184 <= n))
  {
    NextPacket(rest, cc);
    hide Packetise, StartsLikePes, Start;
    if partial.Collecting? {
      var total := partial.data + Payload(rest);
      SameLengthField(total, partial.data);
      assert total[..|total|] == total;
    }
  }

  /** A clear packet that is not the last adds its 184 bytes to the section. */
  lemma PieceAppended(partial: Partial, rest: seq<byte>, cc: nat, s: seq<byte>)
    requires cc < 16 && IsSection(s) && |rest| > 184 && !StartsLikePes(Packetise(rest, false, cc)[0])
    requires partial.Collecting? && |partial.data| >= 3 && partial.data + rest == s
    requires partial.pid == EIT_PID as nat && (partial.cc + 1) % 16 == cc
    ensures var total := partial.data + rest[..184];
            && Feed(partial, Packetise(rest, false, cc)[0]) == Outcome(Collecting(total, EIT_PID as nat, cc), [])
            && total + rest[184..] == s
  {
    NextPacket(rest, cc);
    var total := partial.data + rest[..184];
    assert rest == rest[..184] + rest[184..];
    assert total + rest[184..] == s;
    assert total[..3] == s[..3];
    SameLengthField(total, s);
    assert total[..|total|] == total;
  }

  lemma PieceSkipped(partial: Partial, rest: seq<byte>, cc: nat)
    requires cc < 16 && rest != [] && StartsLikePes(Packetise(rest, false, cc)[0])
    ensures Feed(partial, Packetise(rest, false, cc)[0]) == Outcome(partial, [])
  {
    NextPacket(rest, cc);
  }

  /** As long as no packet has been skipped, the section grows in step; one skip is the end of it. */
  lemma {:induction false} SkippedNeverFills(partial: Partial, rest: seq<byte>, cc: nat, s: seq<byte>)
    requires cc < 16 && IsSection(s) && rest != [] && !Clear(rest, false, cc)
    requires partial.Collecting? && |partial.data| >= 3 && partial.data + rest == s
    requires partial.pid == EIT_PID as nat && (partial.cc + 1) % 16 == cc
    ensures FeedAll(partial, Packetise(rest, false, cc)).done == []
    decreases |rest|
  {
    hide Feed;
    var ps, next := Packetise(rest, false, cc), (cc + 1) % 16;
    ClearStep(rest, false, cc);
    FeedAllCons(partial, ps);
    if StartsLikePes(ps[0]) {
      PieceSkipped(partial, rest, cc);
      assert partial.data[..3] == s[..3];
      SameLengthField(partial.data, s);
      ShortNeverFills(partial, if |rest| >= 184 then rest[184..] else [], next, |s|);
    } else {
      assert |rest| > 184;
      PieceAppended(partial, rest, cc, s);
      SkippedNeverFills(Collecting(partial.data + rest[..184], EIT_PID as nat, cc), rest[184..], next, s);
    }
  }

  /** The first packet of a section longer than itself. */
  lemma HeadCollected(partial: Partial, s: seq<byte>, cc: nat)
    requires cc < 16 && IsSection(s) && s[0] != 0 && |s| > 183
    ensures Feed(partial, Packetise(s, true, cc)[0]) == Outcome(Collecting(s[..183], EIT_PID as nat, cc), [])
  {
    FirstPacket(s, cc);
    StartCut(s[..183], s, EIT_PID as nat, cc);
  }

  /**
   Whatever partial section was pending, sending a stored section and reassembling the packets
   gives exactly that section if no packet starts like PES, and nothing otherwise.
   */
  lemma SendReassemble(partial: Partial, s: seq<byte>, cc: nat)
    requires cc < 16 && IsSection(s) && s[0] != 0
    ensures FeedAll(partial, Packetise(s, true, cc)).done == if Clear(s, true, cc) then [s] else []
  {
    hide Clear, Packetise, Feed, FeedAll;
    if Clear(s, true, cc) {
      ClearReassembled(partial, s, cc);
    } else {
      SkippedNothing(partial, s, cc);
    }
  }

  lemma ClearReassembled(partial: Partial, s: seq<byte>, cc: nat)
    requires cc < 16 && IsSection(s) && Clear(s, true, cc)
    ensures FeedAll(partial, Packetise(s, true, cc)).done == [s]
  {
    hide Clear, Packetise, Feed, FeedAll, Carries;
    SectionCarried(s, cc);
    CarriedIsFinished(partial, Packetise(s, true, cc), EIT_PID as nat, cc, NO_CUT, [s]);
    assert [] + [s] == [s];
  }

  lemma SkippedNothing(partial: Partial, s: seq<byte>, cc: nat)
    requires cc < 16 && IsSection(s) && s[0] != 0 && !Clear(s, true, cc)
    ensures FeedAll(partial, Packetise(s, true, cc)).done == []
  {
    hide Clear, Packetise, Feed, FeedAll, IsSection;
    var ps, next := Packetise(s, true, cc), (cc + 1) % 16;
    LongEnough(s);
    SkipIsLater(s, cc);
    HeadCollected(partial, s, cc);
    HeadOf(s);
    var head := Collecting(s[..183], EIT_PID as nat, cc);
    SkippedNeverFills(head, s[183..], next, s);
    hide *;
    FeedAllCons(partial, ps);
  }

  lemma LongEnough(s: seq<byte>)
    requires IsSection(s)
    ensures s != []
  {
  }

  lemma HeadOf(s: seq<byte>)
    requires |s| > 183
    ensures s[..183] + s[183..] == s && |s[..183]| == 183 && s[183..] != []
  {
  }

  lemma SkipIsLater(s: seq<byte>, cc: nat)
    requires cc < 16 && s != [] && s[0] != 0 && !Clear(s, true, cc)
    ensures |s| > 183 && Packetise(s, true, cc) != [] && !Clear(s[183..], false, (cc + 1) % 16)
    ensures Packetise(s, true, cc)[1..] == Packetise(s[183..], false, (cc + 1) % 16)
  {
    FirstPacket(s, cc);
    ClearStep(s, true, cc);
    NothingIsClear((cc + 1) % 16);
    hide Clear, Packetise, Classify;
  }

  lemma NothingIsClear(cc: nat)
    requires cc < 16
    ensures Clear([], false, cc)
  {
  }

  // ---------- the packets as the standard writes them ----------

  /** A sent packet's payload: a pointer of zero in the first one, the data, and stuffing. */
  function PayloadOf(data: seq<byte>, first: bool): (payload: seq<byte>)
    ensures |payload| == 184
  {
    var pointer, room := if first then [0] else [], if first then 183 else 184;
    pointer + if |data| >= room then data[..room] else data + Repeat(0xff, room - |data|)
  }

  /** A sent packet is an ordinary clear one of PID 18 with that payload. */
  lemma PacketWritten(data: seq<byte>, first: bool, cc: nat)
    requires cc < 16
    ensures OnePacket(data, first, cc)
         == Layout.Packed(Layout.Fields(false, first, false, 18, 0, 1, cc, [], PayloadOf(data, first)))
  {
    var f: Layout.Fields := Layout.Fields(false, first, false, 18, 0, 1, cc, [], PayloadOf(data, first));
    assert Layout.FixedHeader(f) == [0x47, if first then 64 else 0, 18, 16 + cc];
    assert Layout.AdaptationField(f) == [];
    if first {
      assert PayloadOf(data, first) == [0] + PayloadOf(data, first)[1..];
    }
  }
}

/**
 What the reassembler makes of packets as the standard writes them: sections put into the payloads of
 packets, whatever their adaptation fields hold, come out of the calls.
 */
module DemuxLayout {
  import opened Bytes
  import opened Sections
  import opened Layout
  import opened Demux
  import opened DemuxQueue
  import opened DemuxComplete
  import opened DemuxDelivery

  // ---------- one packet ----------

  predicate LikePes(payload: seq<byte>)
  {
    |payload| >= 3 && payload[..3] == [0, 0, 1]
  }

  /** Without payload, or with an ordinary one that looks like PES. */
  predicate Useless(f: Fields)
  {
    !f.HasPayload() || (f.control == 1 && LikePes(f.payload))
  }

  /** The bytes behind the pointer field, split where it points; None when it points past the end. */
  function SplitAtPointer(payload: seq<byte>): Option<(seq<byte>, seq<byte>)>
    requires payload != []
  {
    var rest, pointer := payload[1..], payload[0] as nat;
    if pointer > |rest| then None else Some((rest[..pointer], rest[pointer..]))
  }

  lemma UselessIsUnusable(f: Fields)
    ensures Unusable(Packed(f)) <==> Useless(f)
    ensures f.HasPayload() ==> PayloadOffset(Packed(f)) == 188 - |f.payload|
  {
    var p, o := Packed(f), 188 - |f.payload|;
    FieldsRead(f);
    WrittenParts(f);
    hide Packed, FixedHeader, AdaptationField, Afc;
    if f.control == 1 {
      FirstThree(p, f.payload);
    }
  }

  lemma FirstThree(p: Packet, payload: seq<byte>)
    requires |payload| == 184 && p[4..] == payload
    ensures StartsLikePes(p) <==> LikePes(payload)
  {
    assert p[4] == payload[0] && p[5] == payload[1] && p[6] == payload[2];
  }

  lemma PointerFollowed(p: Packet, o: nat, payload: seq<byte>)
    requires o < 188 && p[o..] == payload
    ensures ClassifyStart(p, o)
         == match SplitAtPointer(payload)
            case None => Drop
            case Some((tail, body)) => Begin(tail, body)
  {
    assert p[o] == payload[0];
    if 1 + payload[0] as nat <= |payload| {
      var first := o + 1 + payload[0] as nat;
      assert p[o + 1..first] == p[o..][1..][..payload[0]] && p[first..] == p[o..][1..][payload[0]..];
    }
  }

  /** What a written packet brings, in terms of its fields. */
  lemma Classified(f: Fields)
    ensures Classify(Packed(f))
         == if Useless(f) then Skip
            else if !f.start then Continue(f.payload)
            else match SplitAtPointer(f.payload)
                 case None => Drop
                 case Some((tail, body)) => Begin(tail, body)
  {
    var p, o := Packed(f), 188 - |f.payload|;
    UselessIsUnusable(f);
    FieldsRead(f);
    WrittenParts(f);
    hide Packed, FixedHeader, AdaptationField, Unusable, PayloadOffset, ClassifyStart, SplitAtPointer, Pusi, Pid;
    if !Useless(f) {
      PointerFollowed(p, o, f.payload);
    }
  }

  /** A packet whose adaptation field leaves no byte for the payload is ignored. */
  lemma OverrunIgnored(p: Packet)
    requires Afc(p) >= 2 && (p[4] >= 183 || Afc(p) == 2)
    ensures Classify(p) == Skip
  {
  }

  // ---------- sections in written packets ----------

  /**
   Packets of one PID, counters from cc on, put into their payloads first what the cut section w lacks,
   then the sections ss; packets without payload may stand anywhere, under any PID and counter.
   */
  ghost predicate Conveys(fs: seq<Fields>, pid: nat, cc: nat, w: Cut, ss: seq<seq<byte>>)
    decreases |fs|
  {
    if fs == [] then w.rest == [] && ss == []
    else if Useless(fs[0]) then Conveys(fs[1..], pid, cc, w, ss)
    else
      && fs[0].pid == pid && fs[0].cc == cc
      && if !fs[0].start then
           && w.rest != [] && w.have + |fs[0].payload| >= 3 && Continues(fs[0].payload, w.rest)
           && Conveys(fs[1..], pid, (cc + 1) % 16, After(w, |fs[0].payload|), ss)
         else
           match SplitAtPointer(fs[0].payload)
           case None => false
           case Some((tail, body)) =>
             && tail == w.rest && Fill(body, ss).Some?
             && Conveys(fs[1..], pid, (cc + 1) % 16, Fill(body, ss).value.cut, Fill(body, ss).value.left)
  }

  ghost function Usable(ps: seq<Packet>): seq<Packet>
  {
    if ps == [] then [] else (if Classify(ps[0]).Skip? then [] else [ps[0]]) + Usable(ps[1..])
  }

  lemma PackedAllCons(fs: seq<Fields>)
    requires fs != []
    ensures PackedAll(fs) == [Packed(fs[0])] + PackedAll(fs[1..])
  {
  }

  lemma UsableStep(fs: seq<Fields>)
    requires fs != []
    ensures Usable(PackedAll(fs))
         == (if Useless(fs[0]) then [] else [Packed(fs[0])]) + Usable(PackedAll(fs[1..]))
  {
    Classified(fs[0]);
    hide Packed, Classify, Useless;
    PackedAllCons(fs);
    assert PackedAll(fs)[1..] == PackedAll(fs[1..]);
  }

  lemma ContinuesCarrying(p: Packet, payload: seq<byte>, ps: seq<Packet>, pid: nat, cc: nat, w: Cut, ss: seq<seq<byte>>)
    requires Classify(p) == Continue(payload) && Pid(p) == pid && ContinuityCounter(p) == cc
    requires w.rest != [] && w.have + |payload| >= 3 && Continues(payload, w.rest)
    requires Carries(ps, pid, (cc + 1) % 16, After(w, |payload|), ss)
    ensures Carries([p] + ps, pid, cc, w, ss)
  {
    hide Classify, Continues, After;
    assert ([p] + ps)[1..] == ps;
  }

  lemma BeginsCarrying(p: Packet, body: seq<byte>, ps: seq<Packet>, pid: nat, cc: nat, w: Cut, ss: seq<seq<byte>>)
    requires Classify(p) == Begin(w.rest, body) && Pid(p) == pid && ContinuityCounter(p) == cc
    requires Fill(body, ss).Some?
    requires Carries(ps, pid, (cc + 1) % 16, Fill(body, ss).value.cut, Fill(body, ss).value.left)
    ensures Carries([p] + ps, pid, cc, w, ss)
  {
    hide Classify, Fill;
    assert ([p] + ps)[1..] == ps;
  }

  /** Their usable packets carry the sections in the reassembler's terms. */
  lemma {:induction false} ConveyedAreCarried(fs: seq<Fields>, pid: nat, cc: nat, w: Cut, ss: seq<seq<byte>>)
    requires Conveys(fs, pid, cc, w, ss)
    ensures Carries(Usable(PackedAll(fs)), pid, cc, w, ss)
    decreases |fs|
  {
    hide Packed, PackedAll, Classify, Usable, Useless, SplitAtPointer, Fill, Continues, After, Carries, Pid, Pusi,
      ContinuityCounter, Afc;
    if fs == [] {
      NothingConveyed(pid, cc, w);
    } else {
      var f := fs[0];
      Classified(f);
      FieldsRead(f);
      UsableStep(fs);
      var p, ps := Packed(f), Usable(PackedAll(fs[1..]));
      if Useless(f) {
        ConveyedAreCarried(fs[1..], pid, cc, w, ss);
        assert [] + ps == ps;
      } else if !f.start {
        ConveyedAreCarried(fs[1..], pid, (cc + 1) % 16, After(w, |f.payload|), ss);
        ContinuesCarrying(p, f.payload, ps, pid, cc, w, ss);
      } else {
        var body := SplitAtPointer(f.payload).value.1;
        ConveyedAreCarried(fs[1..], pid, (cc + 1) % 16, Fill(body, ss).value.cut, Fill(body, ss).value.left);
        BeginsCarrying(p, body, ps, pid, cc, w, ss);
      }
    }
  }

  lemma NothingConveyed(pid: nat, cc: nat, w: Cut)
    requires w.rest == []
    ensures Carries(Usable(PackedAll([])), pid, cc, w, [])
  {
  }

  lemma {:induction false} UsableSnoc(ps: seq<Packet>, p: Packet)
    ensures Usable(ps + [p]) == Usable(ps) + if Classify(p).Skip? then [] else [p]
    decreases |ps|
  {
    hide Classify;
    if ps == [] {
      assert ps + [p] == [p];
    } else {
      assert (ps + [p])[1..] == ps[1..] + [p];
      UsableSnoc(ps[1..], p);
    }
  }

  lemma {:induction false} StrippedUsable(ps: seq<Packet>)
    ensures Stripped(Usable(ps)) == Stripped(ps)
    decreases |ps|
  {
    if ps == [] {
      assert Usable(ps) == [];
    } else {
      hide Usable, Classify;
      var past, p := ps[..|ps| - 1], ps[|ps| - 1];
      StrippedUsable(past);
      UsableSnoc(past, p);
      LastApart(ps);
      StrippedSnoc(past, p);
      StrippedSnoc(Usable(past), p);
      assert Usable(past) + [] == Usable(past);
      hide Stripped;
    }
  }

  lemma StrippedSnoc(ps: seq<Packet>, p: Packet)
    ensures Stripped(ps + [p]) == if Idles(Stripped(ps), p) then Stripped(ps) else Stripped(ps) + [p]
    ensures Classify(p).Skip? ==> Idles(Stripped(ps), p)
  {
    hide Classify;
    assert (ps + [p])[..|ps|] == ps;
  }

  lemma ConveyedAreStripped(fs: seq<Fields>, pid: nat, cc: nat, w: Cut, ss: seq<seq<byte>>)
    requires Conveys(fs, pid, cc, w, ss)
    ensures Carries(Stripped(PackedAll(fs)), pid, cc, w, ss)
  {
    hide *;
    var ps := PackedAll(fs);
    ConveyedAreCarried(fs, pid, cc, w, ss);
    CarriedAreKept(Usable(ps), pid, cc, w, ss);
    StrippedUsable(ps);
  }

  /**
   Completeness in terms of what is sent: sections put into the payloads of packets, with adaptation fields of
   any contents and packets without payload anywhere, come out of the calls as long as the queue has room.
   */
  lemma WrittenSectionsDelivered(st: State, calls: seq<Option<Packet>>, fs: seq<Fields>, pid: nat, cc: nat,
    ss: seq<seq<byte>>)
    requires |st.queue| <= MAX_FULL_PACKETS && Roomy(st, calls)
    requires Packets(calls) == PackedAll(fs) && Conveys(fs, pid, cc, NO_CUT, ss) && AllSections(ss)
    ensures Run(st, calls).delivered + Run(st, calls).state.queue == st.queue + ss
  {
    hide *;
    ConveyedAreStripped(fs, pid, cc, NO_CUT, ss);
    SectionsDelivered(st, calls, pid, cc, ss);
  }

  /** And under the drain loop, exactly when nothing is lost. */
  lemma WrittenSectionsDrained(st: State, fs: seq<Fields>, pid: nat, cc: nat, ss: seq<seq<byte>>)
    requires QueueInv(st) && Conveys(fs, pid, cc, NO_CUT, ss) && AllSections(ss)
    ensures var r := DrainRun(st, PackedAll(fs));
      r.delivered + r.state.queue == st.queue + ss <==> NothingLost(st, PackedAll(fs))
  {
    hide *;
    ConveyedAreStripped(fs, pid, cc, NO_CUT, ss);
    SectionsDrained(st, PackedAll(fs), pid, cc, ss);
  }
}

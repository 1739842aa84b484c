/**
 Soundness of reassembly.  Packets arrive in any order, lost, repeated or corrupted; whatever
 the program queues as a section is intact and is made of consecutive payload of one PID.
 */
module DemuxSound {
  import opened Bytes
  import opened Sections
  import opened Demux

  // ---------- where bytes come from ----------

  /** The bytes of packet p that continue a section. */
  function Tail(p: Packet): seq<byte>
  {
    match Classify(p)
    case Continue(payload) => payload
    case Begin(tail, _) => tail
    case _ => []
  }

  function Body(p: Packet): seq<byte>
  {
    if Classify(p).Begin? then Classify(p).body else []
  }

  /** A packet that may stand between two pieces of a section: unusable, or a repetition. */
  predicate Inert(p: Packet, cc: nat)
  {
    Classify(p).Skip? || (Classify(p).Continue? && ContinuityCounter(p) == cc)
  }

  /**
   ks are the packets of history h that carry one section: same PID, counters going up by one,
   nothing but inert packets in between, and the first of them begins sections.
   */
  ghost predicate Chain(h: seq<Packet>, ks: seq<nat>)
  {
    && ks != []
    && (forall i :: 0 <= i < |ks| ==> ks[i] < |h|)
    && Classify(h[ks[0]]).Begin?
    && (forall i :: 0 <= i < |ks| - 1 ==> Link(h, ks[i], ks[i + 1]))
  }

  ghost predicate Link(h: seq<Packet>, j: nat, k: nat)
    requires j < |h| && k < |h|
  {
    && j < k
    && Pid(h[j]) == Pid(h[k])
    && (ContinuityCounter(h[j]) + 1) % 16 == ContinuityCounter(h[k])
    && (Classify(h[k]).Continue? || Classify(h[k]).Begin?)
    && forall m :: j < m < k ==> Inert(h[m], ContinuityCounter(h[j]))
  }

  /** The payload the packets ks carry, from offset o of the first one's body. */
  ghost function Stream(h: seq<Packet>, ks: seq<nat>, o: nat): seq<byte>
    requires Chain(h, ks) && o <= |Body(h[ks[0]])|
  {
    if |ks| == 1 then Body(h[ks[0]])[o..]
    else Stream(h, ks[..|ks| - 1], o) + Tail(h[ks[|ks| - 1]])
  }

  /** s is the beginning of what consecutive packets of one PID carry. */
  ghost predicate Carried(h: seq<Packet>, s: seq<byte>)
  {
    exists ks: seq<nat>, o: nat ::
      Chain(h, ks) && o <= |Body(h[ks[0]])| && s <= Stream(h, ks, o)
  }

  /** What fits the buffer of the section being collected. */
  function Clip(s: seq<byte>): seq<byte>
  {
    s[..Min(|s|, MAX_TS_SIZE)]
  }

  lemma ClipAppend(s: seq<byte>, t: seq<byte>)
    ensures Clip(Clip(s) + t) == Clip(s + t)
  {
  }

  /** As Carried, for the section still being collected: it has all the bytes so far that fit. */
  ghost predicate Gathering(h: seq<Packet>, data: seq<byte>, pid: nat, cc: nat, ks: seq<nat>, o: nat)
  {
    && Chain(h, ks) && o <= |Body(h[ks[0]])|
    && data == Clip(Stream(h, ks, o))
    && Pid(h[ks[|ks| - 1]]) == pid && ContinuityCounter(h[ks[|ks| - 1]]) == cc
    && forall m :: ks[|ks| - 1] < m < |h| ==> Inert(h[m], cc)
  }

  // ---------- history only grows ----------

  lemma {:induction false} StreamStable(h: seq<Packet>, p: Packet, ks: seq<nat>, o: nat)
    requires Chain(h, ks) && o <= |Body(h[ks[0]])|
    ensures Chain(h + [p], ks) && o <= |Body((h + [p])[ks[0]])|
    ensures Stream(h + [p], ks, o) == Stream(h, ks, o)
    decreases |ks|
  {
    hide Body, Tail, Link, Classify;
    ChainStable(h, p, ks);
    if |ks| > 1 {
      ChainPrefix(h, ks);
      StreamStable(h, p, ks[..|ks| - 1], o);
    }
  }

  lemma ChainStable(h: seq<Packet>, p: Packet, ks: seq<nat>)
    requires Chain(h, ks)
    ensures Chain(h + [p], ks)
  {
    hide Classify, Pid, ContinuityCounter;
    forall i | 0 <= i < |ks| - 1 ensures Link(h + [p], ks[i], ks[i + 1]) {
      assert Link(h, ks[i], ks[i + 1]);
    }
  }

  lemma ChainPrefix(h: seq<Packet>, ks: seq<nat>)
    requires Chain(h, ks) && |ks| > 1
    ensures Chain(h, ks[..|ks| - 1])
  {
    hide Link, Classify;
    var ks' := ks[..|ks| - 1];
    forall i | 0 <= i < |ks'| - 1 ensures Link(h, ks'[i], ks'[i + 1]) {
      assert Link(h, ks[i], ks[i + 1]);
    }
  }

  lemma CarriedStable(h: seq<Packet>, p: Packet, s: seq<byte>)
    requires Carried(h, s)
    ensures Carried(h + [p], s)
  {
    var ks: seq<nat>, o: nat :| Chain(h, ks) && o <= |Body(h[ks[0]])| && s <= Stream(h, ks, o);
    StreamStable(h, p, ks, o);
  }

  // ---------- one packet ----------

  /** The packet extends the section being collected: its chain gets one longer. */
  lemma ChainGrows(h: seq<Packet>, p: Packet, data: seq<byte>, pid: nat, cc: nat, ks: seq<nat>, o: nat)
    requires Gathering(h, data, pid, cc, ks, o)
    requires Classify(p).Continue? || Classify(p).Begin?
    requires pid == Pid(p) && (cc + 1) % 16 == ContinuityCounter(p)
    ensures Chain(h + [p], ks + [|h|]) && o <= |Body((h + [p])[(ks + [|h|])[0]])|
    ensures Stream(h + [p], ks + [|h|], o) == Stream(h, ks, o) + Tail(p)
  {
    var h', ks' := h + [p], ks + [|h|];
    StreamStable(h, p, ks, o);
    LastLinked(h, p, data, pid, cc, ks, o);
    hide Link, Body, Tail, Classify, Gathering, Pid, ContinuityCounter;
    forall i | 0 <= i < |ks'| - 1 ensures Link(h', ks'[i], ks'[i + 1]) {
      if i < |ks| - 1 {
        assert Link(h', ks[i], ks[i + 1]);
      } else {
        assert ks'[i] == ks[|ks| - 1] && ks'[i + 1] == |h|;
      }
    }
    assert ks'[..|ks'| - 1] == ks;
  }

  /** The packet is linked to the last one of the chain. */
  lemma LastLinked(h: seq<Packet>, p: Packet, data: seq<byte>, pid: nat, cc: nat, ks: seq<nat>, o: nat)
    requires Gathering(h, data, pid, cc, ks, o)
    requires Classify(p).Continue? || Classify(p).Begin?
    requires pid == Pid(p) && (cc + 1) % 16 == ContinuityCounter(p)
    ensures Link(h + [p], ks[|ks| - 1], |h|)
  {
    hide Body, Stream, Classify, Pid, ContinuityCounter;
  }

  lemma PacketGathers(h: seq<Packet>, p: Packet)
    requires Classify(p).Begin?
    ensures Gathering(h + [p], Body(p), Pid(p), ContinuityCounter(p), [|h|], 0)
  {
    BodyIsShort(p);
    assert Body(p)[0..] == Body(p);
  }

  lemma BodyIsShort(p: Packet)
    ensures |Body(p)| <= 183
  {
  }

  lemma PrefixCarried(h: seq<Packet>, s: seq<byte>, data: seq<byte>, pid: nat, cc: nat, ks: seq<nat>, o: nat)
    requires Gathering(h, data, pid, cc, ks, o) && s <= data
    ensures Carried(h, s)
  {
  }

  /** Start, one section at a time. */
  lemma StartCases(buf: seq<byte>, pid: nat, cc: nat)
    ensures var out := Start(buf, pid, cc);
            if |buf| < 3 || |buf| < FullLength(buf) then out == Outcome(Collecting(buf, pid, cc), [])
            else
              var n := FullLength(buf);
              var next := Start(buf[n..], pid, cc);
              out == Outcome(Idle, Check(buf[..n])) || out == Outcome(next.partial, Check(buf[..n]) + next.done)
  {
    if |buf| >= 3 && |buf| >= FullLength(buf) {
      assert Check(buf[..FullLength(buf)]) + [] == Check(buf[..FullLength(buf)]);
    }
  }

  ghost predicate QueueSound(h: seq<Packet>, queue: seq<seq<byte>>)
  {
    forall s :: s in queue ==> IsSection(s) && Carried(h, s)
  }

  lemma QueueSoundJoin(h: seq<Packet>, a: seq<seq<byte>>, b: seq<seq<byte>>)
    requires QueueSound(h, a) && QueueSound(h, b)
    ensures QueueSound(h, a + b) && QueueSound(h, [])
  {
  }

  /** The section at the start of what packet p gathers is sound, if it is there. */
  lemma CheckSound(h: seq<Packet>, buf: seq<byte>, pid: nat, cc: nat, ks: seq<nat>, o: nat)
    requires Gathering(h, buf, pid, cc, ks, o) && |buf| >= 3 && |buf| >= FullLength(buf)
    requires |buf| <= 183
    ensures QueueSound(h, Check(buf[..FullLength(buf)]))
  {
    var n := FullLength(buf);
    assert buf[..n][..3] == buf[..3];
    SameLengthField(buf[..n], buf);
    PrefixCarried(h, buf[..n], buf, pid, cc, ks, o);
  }

  /** The collected section is what packet number k gathers, from some offset on. */
  ghost predicate GathersFrom(h: seq<Packet>, partial: Partial, pid: nat, cc: nat, k: nat)
  {
    partial.Collecting? ==>
      partial.pid == pid && partial.cc == cc && exists o: nat :: Gathering(h, partial.data, pid, cc, [k], o)
  }

  lemma GathersAt(h: seq<Packet>, data: seq<byte>, pid: nat, cc: nat, k: nat, o: nat)
    requires Gathering(h, data, pid, cc, [k], o)
    ensures GathersFrom(h, Collecting(data, pid, cc), pid, cc, k) && GathersFrom(h, Idle, pid, cc, k)
  {
  }

  /** What one packet gathers, from later on. */
  lemma GathersLater(h: seq<Packet>, buf: seq<byte>, pid: nat, cc: nat, k: nat, o: nat, n: nat)
    requires Gathering(h, buf, pid, cc, [k], o) && n <= |buf|
    ensures Gathering(h, buf[n..], pid, cc, [k], o + n)
  {
    BodyIsShort(h[k]);
    assert Body(h[k])[o + n..] == Body(h[k])[o..][n..];
  }

  /** Sections that begin in what packet k gathers from offset o on. */
  lemma {:induction false} StartsSound(h: seq<Packet>, buf: seq<byte>, pid: nat, cc: nat, k: nat, o: nat)
    requires Gathering(h, buf, pid, cc, [k], o) && |buf| <= 183
    ensures var out := Start(buf, pid, cc); QueueSound(h, out.done) && GathersFrom(h, out.partial, pid, cc, k)
    decreases |buf|
  {
    hide *;
    GathersAt(h, buf, pid, cc, k, o);
    StartCases(buf, pid, cc);
    QueueSoundJoin(h, [], []);
    if |buf| >= 3 && |buf| >= FullLength(buf) {
      var n := FullLength(buf);
      CheckSound(h, buf, pid, cc, [k], o);
      GathersLater(h, buf, pid, cc, k, o, n);
      StartsSound(h, buf[n..], pid, cc, k, o + n);
      QueueSoundJoin(h, Check(buf[..n]), Start(buf[n..], pid, cc).done);
    }
  }

  /** Sections that begin in packet p. */
  lemma StartSound(h: seq<Packet>, p: Packet)
    requires Classify(p).Begin?
    ensures var out := Start(Body(p), Pid(p), ContinuityCounter(p));
            QueueSound(h + [p], out.done) && GathersFrom(h + [p], out.partial, Pid(p), ContinuityCounter(p), |h|)
  {
    PacketGathers(h, p);
    StartsSound(h + [p], Body(p), Pid(p), ContinuityCounter(p), |h|, 0);
  }

  /** The section being collected is what consecutive packets of one PID carry, as far as it fits. */
  ghost predicate PartialSound(h: seq<Packet>, partial: Partial)
  {
    partial.Collecting? ==> exists ks, o :: Gathering(h, partial.data, partial.pid, partial.cc, ks, o)
  }

  /** What is gathered is finished as a section, or kept as far as it fits. */
  lemma AppendSound(h: seq<Packet>, total: seq<byte>, pid: nat, cc: nat, ks: seq<nat>, o: nat)
    requires Gathering(h, Clip(total), pid, cc, ks, o)
    ensures var out := Append(total, pid, cc);
            && QueueSound(h, out.done)
            && (out.partial.Collecting? ==> out.partial == Collecting(Clip(total), pid, cc))
  {
    hide Gathering, Carried, Accepts;
    if |total| >= 3 {
      var n := FullLength(total);
      if n <= Min(|total|, MAX_TS_SIZE) {
        assert total[..n][..3] == total[..3];
        SameLengthField(total[..n], total);
        assert total[..n] <= Clip(total);
        PrefixCarried(h, total[..n], Clip(total), pid, cc, ks, o);
      }
    }
  }

  /** The end of the collected section, or more of it. */
  lemma ExtendSound(h: seq<Packet>, p: Packet, data: seq<byte>, pid: nat, cc: nat, ks: seq<nat>, o: nat)
    requires Gathering(h, data, pid, cc, ks, o)
    requires Classify(p).Continue? || Classify(p).Begin?
    ensures var out := Extend(Collecting(data, pid, cc), Tail(p), Pid(p), ContinuityCounter(p));
            && QueueSound(h + [p], out.done)
            && (Classify(p).Continue? ==> PartialSound(h + [p], out.partial))
  {
    hide Append, Carried, Tail, Classify, ContinuityCounter, Pid;
    var c := ContinuityCounter(p);
    var h' := h + [p];
    if cc == c {
      StreamStable(h, p, ks, o);
      if Classify(p).Continue? {
        assert Gathering(h', data, pid, cc, ks, o);
      }
    } else if (cc + 1) % 16 == c && pid == Pid(p) {
      ChainGrows(h, p, data, pid, cc, ks, o);
      var ks' := ks + [|h|];
      ClipAppend(Stream(h, ks, o), Tail(p));
      assert Gathering(h', Clip(data + Tail(p)), pid, c, ks', o);
      AppendSound(h', data + Tail(p), pid, c, ks', o);
    }
  }

  // ---------- every run ----------

  ghost predicate Sound(h: seq<Packet>, session: Session)
  {
    && PartialSound(h, session.state.partial)
    && QueueSound(h, session.state.queue)
    && QueueSound(h, session.delivered)
    && (session.state.partial.Collecting? ==> |session.state.partial.data| <= MAX_TS_SIZE)
  }

  lemma {:induction false} PushAllMembers(queue: seq<seq<byte>>, done: seq<seq<byte>>)
    ensures forall s :: s in PushAll(queue, done) ==> s in queue || s in done
    decreases |done|
  {
    if done != [] {
      PushAllMembers(Push(queue, done[0]), done[1..]);
    }
  }

  /** The continuation bytes of a packet. */
  lemma TailSound(h: seq<Packet>, partial: Partial, p: Packet)
    requires PartialSound(h, partial)
    requires Classify(p).Continue? || Classify(p).Begin?
    ensures var out := Extend(partial, Tail(p), Pid(p), ContinuityCounter(p));
            QueueSound(h + [p], out.done) && (Classify(p).Continue? ==> PartialSound(h + [p], out.partial))
  {
    hide Gathering, Tail, Classify, Append;
    if partial.Collecting? {
      var ks, o :| Gathering(h, partial.data, partial.pid, partial.cc, ks, o);
      ExtendSound(h, p, partial.data, partial.pid, partial.cc, ks, o);
    }
  }

  lemma SkipSound(h: seq<Packet>, partial: Partial, p: Packet)
    requires PartialSound(h, partial) && Classify(p).Skip?
    ensures PartialSound(h + [p], partial)
  {
    if partial.Collecting? {
      var ks, o :| Gathering(h, partial.data, partial.pid, partial.cc, ks, o);
      StreamStable(h, p, ks, o);
      assert Gathering(h + [p], partial.data, partial.pid, partial.cc, ks, o);
    }
  }

  lemma BodySound(h: seq<Packet>, p: Packet)
    requires Classify(p).Begin?
    ensures var out := Start(Body(p), Pid(p), ContinuityCounter(p));
            QueueSound(h + [p], out.done) && PartialSound(h + [p], out.partial)
  {
    StartSound(h, p);
  }

  /** What one packet finishes is sound, and so is what it leaves collected. */
  lemma FeedSound(h: seq<Packet>, partial: Partial, p: Packet)
    requires PartialSound(h, partial)
    ensures var out := Feed(partial, p); QueueSound(h + [p], out.done) && PartialSound(h + [p], out.partial)
  {
    match Classify(p)
    case Drop =>
    case Skip => SkipSound(h, partial, p);
    case Continue(_) => TailSound(h, partial, p);
    case Begin(_, _) =>
      TailSound(h, partial, p);
      BodySound(h, p);
  }

  lemma QueueSoundStable(h: seq<Packet>, p: Packet, queue: seq<seq<byte>>)
    requires QueueSound(h, queue)
    ensures QueueSound(h + [p], queue)
  {
    forall s | s in queue ensures Carried(h + [p], s) {
      CarriedStable(h, p, s);
    }
  }

  lemma PacketSound(h: seq<Packet>, session: Session, p: Packet)
    requires Sound(h, session)
    ensures var reply := Call(session.state, Some(p));
            && PartialSound(h + [p], reply.state.partial)
            && QueueSound(h + [p], reply.state.queue)
            && QueueSound(h + [p], session.delivered)
            && (reply.popped.Some? ==> QueueSound(h + [p], [reply.popped.value]))
  {
    var st := session.state;
    FeedSound(h, st.partial, p);
    QueueSoundStable(h, p, st.queue);
    QueueSoundStable(h, p, session.delivered);
    PushAllMembers(Rest(st.queue), Feed(st.partial, p).done);
  }

  /**
   Reassembly soundness: in every run, whatever the packets are, each section queued or handed
   out is intact, at most 4096 bytes long, and is carried by packets of one PID with
   consecutive counters; the collected bytes never outgrow the buffer.
   */
  lemma {:induction false} RunSound(calls: seq<Option<Packet>>)
    ensures Sound(Packets(calls), Run(State(Idle, []), calls))
    decreases |calls|
  {
    if calls != [] {
      var earlier := calls[..|calls| - 1];
      RunSound(earlier);
      var h, session := Packets(earlier), Run(State(Idle, []), earlier);
      match calls[|calls| - 1]
      case None =>
        assert h + [] == h;
      case Some(p) =>
        PacketSound(h, session, p);
    }
  }
}

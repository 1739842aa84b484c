/**
 Completeness at the client: packed sections come out of the queue unchanged, once each and in
 order, also when packets that bring nothing lie between those that carry them.
 */
module DemuxDelivery {
  import opened Bytes
  import opened Sections
  import opened Demux
  import opened DemuxQueue
  import opened DemuxComplete

  lemma FeedAllSnoc(partial: Partial, ps: seq<Packet>, p: Packet)
    ensures var before := FeedAll(partial, ps);
            FeedAll(partial, ps + [p])
            == Outcome(Feed(before.partial, p).partial, before.done + Feed(before.partial, p).done)
  {
    hide Feed;
    assert (ps + [p])[..|ps|] == ps;
  }

  // ---------- packets that bring nothing ----------

  /**
   A packet that brings nothing after the packets kept so far: an unusable one, one that only
   continues under the last counter, or a repetition of the last in which no section ends.
   */
  ghost predicate Idles(kept: seq<Packet>, p: Packet)
  {
    || Classify(p).Skip?
    || (kept != [] && Classify(p).Continue? && !Classify(kept[|kept| - 1]).Skip?
        && ContinuityCounter(p) == ContinuityCounter(kept[|kept| - 1]))
    || (kept != [] && Classify(p).Begin? && p == kept[|kept| - 1] && OwnSections(p) == [])
  }

  /** The sections that begin and end in the packet. */
  ghost function OwnSections(p: Packet): seq<seq<byte>>
    requires Classify(p).Begin?
  {
    Start(Classify(p).body, Pid(p), ContinuityCounter(p)).done
  }

  /** The packets without those that bring nothing. */
  ghost function Stripped(ps: seq<Packet>): seq<Packet>
  {
    if ps == [] then []
    else
      var kept, p := Stripped(ps[..|ps| - 1]), ps[|ps| - 1];
      if Idles(kept, p) then kept else kept + [p]
  }

  /** A usable packet leaves nothing collected under another counter. */
  lemma CounterLeft(partial: Partial, p: Packet)
    requires !Classify(p).Skip?
    ensures var after := Feed(partial, p).partial; after.Collecting? ==> after.cc == ContinuityCounter(p)
  {
    if Classify(p).Begin? {
      StartCounter(Classify(p).body, Pid(p), ContinuityCounter(p));
    }
  }

  lemma {:induction false} StartCounter(body: seq<byte>, pid: nat, cc: nat)
    ensures var after := Start(body, pid, cc).partial; after.Collecting? ==> after.cc == cc
    decreases |body|
  {
    if |body| >= 3 && |body| >= FullLength(body) {
      var rest := body[FullLength(body)..];
      if rest != [] && rest[0] != 0xff {
        StartCounter(rest, pid, cc);
      }
    }
  }

  /**
   A packet received twice: a continuation counts once, but the sections that begin and end in the
   packet come out twice.
   */
  lemma RepeatedPacket(partial: Partial, p: Packet)
    requires !Classify(p).Skip?
    ensures var once := Feed(partial, p);
      Feed(once.partial, p) == Outcome(once.partial, if Classify(p).Begin? then OwnSections(p) else [])
  {
    hide Start;
    CounterLeft(partial, p);
  }

  lemma IdleFeed(partial: Partial, last: Packet, p: Packet)
    requires !Classify(last).Skip? && Classify(p).Continue? && ContinuityCounter(p) == ContinuityCounter(last)
    ensures Feed(Feed(partial, last).partial, p) == Outcome(Feed(partial, last).partial, [])
  {
    hide Start;
    CounterLeft(partial, last);
  }

  lemma {:induction false} KeptAreNotSkipped(ps: seq<Packet>)
    ensures forall p :: p in Stripped(ps) ==> !Classify(p).Skip?
    decreases |ps|
  {
    if ps != [] {
      KeptAreNotSkipped(ps[..|ps| - 1]);
    }
  }

  /** Packets that bring nothing change nothing, whatever was pending and whatever the others are. */
  lemma {:induction false} StrippedFeeds(partial: Partial, ps: seq<Packet>)
    ensures FeedAll(partial, ps) == FeedAll(partial, Stripped(ps))
    decreases |ps|
  {
    if ps != [] {
      hide Feed, Classify;
      var past, p := ps[..|ps| - 1], ps[|ps| - 1];
      var kept := Stripped(past);
      StrippedFeeds(partial, past);
      KeptAreNotSkipped(past);
      if Idles(kept, p) {
        IdleAfter(partial, kept, p);
      } else {
        FeedAllSnoc(partial, kept, p);
      }
    }
  }

  lemma IdleAfter(partial: Partial, kept: seq<Packet>, p: Packet)
    requires Idles(kept, p) && forall q :: q in kept ==> !Classify(q).Skip?
    ensures var before := FeedAll(partial, kept); Feed(before.partial, p) == Outcome(before.partial, [])
  {
    if !Classify(p).Skip? {
      hide Feed, Start;
      var last := kept[|kept| - 1];
      assert last in kept;
      var earlier := FeedAll(partial, kept[..|kept| - 1]).partial;
      if Classify(p).Continue? {
        IdleFeed(earlier, last, p);
      } else {
        RepeatedPacket(earlier, p);
      }
    }
  }

  /** Usable packets with counters one after the other. */
  ghost predicate InSequence(ps: seq<Packet>)
  {
    && (forall k :: 0 <= k < |ps| ==> !Classify(ps[k]).Skip?)
    && forall k :: 0 < k < |ps| ==> ContinuityCounter(ps[k]) == (ContinuityCounter(ps[k - 1]) + 1) % 16
  }

  lemma {:induction false} CarriedInSequence(ps: seq<Packet>, pid: nat, cc: nat, w: Cut, ss: seq<seq<byte>>)
    requires Carries(ps, pid, cc, w, ss)
    ensures InSequence(ps) && (ps != [] ==> ContinuityCounter(ps[0]) == cc)
    decreases |ps|
  {
    if ps != [] {
      var rest, next := ps[1..], (cc + 1) % 16;
      match Classify(ps[0])
      case Continue(payload) => CarriedInSequence(rest, pid, next, After(w, |payload|), ss);
      case Begin(_, body) => CarriedInSequence(rest, pid, next, Fill(body, ss).value.cut, Fill(body, ss).value.left);
      InSequenceCons(ps);
    }
  }

  lemma InSequenceCons(ps: seq<Packet>)
    requires ps != [] && !Classify(ps[0]).Skip? && InSequence(ps[1..])
    requires |ps| > 1 ==> ContinuityCounter(ps[1]) == (ContinuityCounter(ps[0]) + 1) % 16
    ensures InSequence(ps)
  {
    hide Classify, ContinuityCounter;
    forall k | 0 < k < |ps| ensures ContinuityCounter(ps[k]) == (ContinuityCounter(ps[k - 1]) + 1) % 16 {
      assert ps[k] == ps[1..][k - 1];
    }
    forall k | 0 <= k < |ps| ensures !Classify(ps[k]).Skip? {
      assert k > 0 ==> ps[k] == ps[1..][k - 1];
    }
  }

  lemma {:induction false} SequenceIsKept(ps: seq<Packet>)
    requires InSequence(ps)
    ensures Stripped(ps) == ps
    decreases |ps|
  {
    if ps != [] {
      var past := ps[..|ps| - 1];
      NextIsNoIdle(ps);
      hide *;
      SequenceIsKept(past);
      NotIdleKept(ps);
    }
  }

  lemma NextIsNoIdle(ps: seq<Packet>)
    requires ps != [] && InSequence(ps)
    ensures InSequence(ps[..|ps| - 1]) && !Idles(ps[..|ps| - 1], ps[|ps| - 1])
  {
    hide Classify, ContinuityCounter, OwnSections;
    var past, p := ps[..|ps| - 1], ps[|ps| - 1];
    if past != [] {
      var last := past[|past| - 1];
      assert last == ps[|ps| - 2] && ContinuityCounter(p) == (ContinuityCounter(last) + 1) % 16;
      CountersDiffer(ContinuityCounter(last));
    }
  }

  lemma CountersDiffer(cc: nat)
    requires cc < 16
    ensures (cc + 1) % 16 != cc
  {
  }

  lemma NotIdleKept(ps: seq<Packet>)
    requires ps != [] && Stripped(ps[..|ps| - 1]) == ps[..|ps| - 1] && !Idles(ps[..|ps| - 1], ps[|ps| - 1])
    ensures Stripped(ps) == ps
  {
    hide Idles;
    LastApart(ps);
  }

  /** Of packets that carry sections none is left out. */
  lemma CarriedAreKept(ps: seq<Packet>, pid: nat, cc: nat, w: Cut, ss: seq<seq<byte>>)
    requires Carries(ps, pid, cc, w, ss)
    ensures Stripped(ps) == ps
  {
    CarriedInSequence(ps, pid, cc, w, ss);
    SequenceIsKept(ps);
  }

  /** Reassembly completeness with such packets in between. */
  lemma CarriedAmidInert(partial: Partial, ps: seq<Packet>, pid: nat, cc: nat, w: Cut, ss: seq<seq<byte>>)
    requires Carries(Stripped(ps), pid, cc, w, ss) && Lacks(partial, w, pid, cc) && AllSections(ss)
    ensures FeedAll(partial, ps).done == Finishing(partial, w) + ss
  {
    StrippedFeeds(partial, ps);
    CarriedIsFinished(partial, Stripped(ps), pid, cc, w, ss);
  }

  // ---------- through the queue to the client ----------

  /** When the last call of the run is made, the queue has room for what its packet finishes. */
  ghost predicate HasRoom(st: State, p: Packet)
  {
    var left, done := Rest(st.queue), Feed(st.partial, p).done;
    |left| + |done| <= MAX_FULL_PACKETS && TotalLength(left) + TotalLength(done) < FULL_BUFFER_SIZE
  }

  /** Moreover the packet is not an unusable one that finds exactly one section waiting. */
  ghost predicate Spares(st: State, p: Packet)
  {
    HasRoom(st, p) && !Swallows(st, Some(p))
  }

  ghost predicate Roomy(st: State, calls: seq<Option<Packet>>)
    decreases |calls|
  {
    calls == [] ||
    (&& Roomy(st, calls[..|calls| - 1])
     && match calls[|calls| - 1]
        case None => true
        case Some(p) => Spares(Run(st, calls[..|calls| - 1]).state, p))
  }

  lemma CallConserves(st: State, p: Packet)
    requires |st.queue| <= MAX_FULL_PACKETS && Spares(st, p)
    ensures var reply := Call(st, Some(p));
            && reply.available == reply.popped.Some? == (st.queue != [])
            && (reply.available ==> reply.popped.value == st.queue[0])
            && reply.state == State(Feed(st.partial, p).partial, Rest(st.queue) + Feed(st.partial, p).done)
            && |reply.state.queue| <= MAX_FULL_PACKETS
  {
    hide Feed;
    var left, done := Rest(st.queue), Feed(st.partial, p).done;
    PushAllKeepsPrefix(left, done);
    assert done[..|done|] == done;
  }

  /** Popping the head and adding at the end keeps delivered + queue, up to what is added. */
  lemma Conserved(delivered: seq<seq<byte>>, queue: seq<seq<byte>>, done: seq<seq<byte>>, total: seq<seq<byte>>)
    requires delivered + queue == total
    ensures var reported := if queue == [] then [] else [queue[0]];
            (delivered + reported) + (Rest(queue) + done) == total + done
  {
    if queue != [] {
      assert queue == [queue[0]] + queue[1..];
    }
  }

  lemma RunSnoc(st: State, calls: seq<Option<Packet>>)
    requires calls != []
    ensures var run := Run(st, calls[..|calls| - 1]);
            var reply := Call(run.state, calls[|calls| - 1]);
            && Run(st, calls).state == reply.state
            && Run(st, calls).delivered
               == run.delivered + if reply.available && reply.popped.Some? then [reply.popped.value] else []
  {
    hide Call;
  }

  ghost function Reported(reply: Reply): seq<seq<byte>>
  {
    if reply.available && reply.popped.Some? then [reply.popped.value] else []
  }

  lemma PacketConserves(session: Session, fed: Outcome, base: seq<seq<byte>>, p: Packet)
    requires session.state.partial == fed.partial && |session.state.queue| <= MAX_FULL_PACKETS
    requires session.delivered + session.state.queue == base + fed.done
    requires Spares(session.state, p)
    ensures var reply := Call(session.state, Some(p));
            && reply.state.partial == Feed(fed.partial, p).partial
            && |reply.state.queue| <= MAX_FULL_PACKETS
            && (session.delivered + Reported(reply)) + reply.state.queue
               == base + (fed.done + Feed(fed.partial, p).done)
  {
    hide Feed;
    CallConserves(session.state, p);
    var done := Feed(fed.partial, p).done;
    Conserved(session.delivered, session.state.queue, done, base + fed.done);
    assert (base + fed.done) + done == base + (fed.done + done);
  }

  lemma PopConserves(session: Session, total: seq<seq<byte>>)
    requires session.delivered + session.state.queue == total
    ensures var reply := Call(session.state, None);
            && reply.state.partial == session.state.partial
            && (session.delivered + Reported(reply)) + reply.state.queue == total
  {
    Conserved(session.delivered, session.state.queue, [], total);
    assert Rest(session.state.queue) + [] == Rest(session.state.queue);
    assert total + [] == total;
  }

  /** While there is room, no call loses, repeats or reorders a section. */
  lemma {:induction false} RunConserves(st: State, calls: seq<Option<Packet>>)
    requires |st.queue| <= MAX_FULL_PACKETS && Roomy(st, calls)
    ensures var run := Run(st, calls);
            var fed := FeedAll(st.partial, Packets(calls));
            && run.state.partial == fed.partial && |run.state.queue| <= MAX_FULL_PACKETS
            && run.delivered + run.state.queue == st.queue + fed.done
    decreases |calls|
  {
    hide Feed, Run, FeedAll;
    if calls == [] {
      NothingRun(st);
    } else {
      var earlier := calls[..|calls| - 1];
      RunConserves(st, earlier);
      RunSnoc(st, calls);
      var run := Run(st, earlier);
      var fed := FeedAll(st.partial, Packets(earlier));
      match calls[|calls| - 1]
      case None =>
        assert Packets(calls) == Packets(earlier);
        PopConserves(run, st.queue + fed.done);
      case Some(p) =>
        PacketConserves(run, fed, st.queue, p);
        FeedAllSnoc(st.partial, Packets(earlier), p);
    }
  }

  lemma NothingRun(st: State)
    ensures Run(st, []) == Session(st, []) && FeedAll(st.partial, Packets([])) == Outcome(st.partial, [])
    ensures Run(st, []).delivered + st.queue == st.queue + FeedAll(st.partial, Packets([])).done
  {
    assert [] + st.queue == st.queue + [];
  }

  /**
   Reassembly completeness at the client: whatever was pending, whenever the client chooses to
   pop, and whatever inert packets lie between, the sections reported so far followed by those still
   queued are exactly the old queue followed by the sections packed, as long as the queue has room.
   */
  lemma SectionsDelivered(st: State, calls: seq<Option<Packet>>, pid: nat, cc: nat, ss: seq<seq<byte>>)
    requires |st.queue| <= MAX_FULL_PACKETS && Roomy(st, calls)
    requires Carries(Stripped(Packets(calls)), pid, cc, NO_CUT, ss) && AllSections(ss)
    ensures Run(st, calls).delivered + Run(st, calls).state.queue == st.queue + ss
  {
    hide Feed;
    RunConserves(st, calls);
    CarriedAmidInert(st.partial, Packets(calls), pid, cc, NO_CUT, ss);
    assert [] + ss == ss;
  }

  // ---------- under the drain loop ----------

  /** What the client has and keeps waiting of what waited when the packet came. */
  ghost function Spared(st: State, p: Packet): seq<seq<byte>>
  {
    if Swallows(st, Some(p)) then [] else st.queue
  }

  /** A drain round loses what finds no place, and the waiting section an unusable packet swallows. */
  lemma DrainRoundConserves(st: State, p: Packet)
    requires QueueInv(st)
    ensures var left, done, r := Rest(st.queue), Feed(st.partial, p).done, DrainRound(st, p);
            && |left| < MAX_FULL_PACKETS && (Swallows(st, Some(p)) ==> |st.queue| == 1)
            && r.delivered + r.state.queue == Spared(st, p) + done[..Min(|done|, MAX_FULL_PACKETS - |left|)]
  {
    RoundHandsOn(st, p);
    CallWithoutReset(st, p);
    SwallowsOne(st, p);
    hide *;
    var done := Feed(st.partial, p).done;
    HeadAndRest(st.queue, done[..Min(|done|, MAX_FULL_PACKETS - |Rest(st.queue)|)]);
  }

  lemma SwallowsOne(st: State, p: Packet)
    ensures Spared(st, p) == if Swallows(st, Some(p)) then [] else st.queue
    ensures Swallows(st, Some(p)) ==> |st.queue| == 1 && Rest(st.queue) == [] && Feed(st.partial, p).done == []
  {
  }

  lemma HeadAndRest(queue: seq<seq<byte>>, more: seq<seq<byte>>)
    ensures queue == [] ==> Rest(queue) + more == queue + more
    ensures queue != [] ==> [queue[0]] + (Rest(queue) + more) == queue + more
  {
    if queue != [] {
      assert queue == [queue[0]] + Rest(queue);
    }
  }

  /** A round hands out the head it pops and all that is queued then, or leaves it all queued. */
  lemma RoundHandsOn(st: State, p: Packet)
    ensures var r, queue := DrainRound(st, p), Call(st, Some(p)).state.queue;
            r.delivered + r.state.queue
            == if st.queue == [] || Swallows(st, Some(p)) then queue else [st.queue[0]] + queue
  {
    hide Feed;
    DrainedIsQueue(Call(st, Some(p)).state);
    UnreportedPop(st, p);
  }

  /** In every round the sections finished find a place, and none that waits is swallowed. */
  ghost predicate NothingLost(st: State, ps: seq<Packet>)
    decreases |ps|
  {
    ps == [] ||
    var before, p := DrainRun(st, ps[..|ps| - 1]).state, ps[|ps| - 1];
    NothingLost(st, ps[..|ps| - 1]) && !Swallows(before, Some(p)) && FindsPlaces(before, p)
  }

  ghost predicate FindsPlaces(st: State, p: Packet)
  {
    |Rest(st.queue)| + |Feed(st.partial, p).done| <= MAX_FULL_PACKETS
  }

  ghost predicate NothingSwallowed(st: State, ps: seq<Packet>)
    decreases |ps|
  {
    ps == [] ||
    (NothingSwallowed(st, ps[..|ps| - 1]) && !Swallows(DrainRun(st, ps[..|ps| - 1]).state, Some(ps[|ps| - 1])))
  }

  lemma Chained<T>(delivered: seq<T>, last: seq<T>, queue: seq<T>, before: seq<T>, total: seq<T>, more: seq<T>)
    requires last + queue == before + more && delivered + before == total
    ensures delivered + last + queue == total + more
  {
    assert delivered + last + queue == delivered + (last + queue);
    assert delivered + (before + more) == (delivered + before) + more;
  }

  /** One more round, whether it loses something or not. */
  lemma DrainRoundCounts(st: State, base: seq<seq<byte>>, delivered: seq<seq<byte>>, p: Packet)
    requires QueueInv(st)
    ensures var last, done := DrainRound(st, p), Feed(st.partial, p).done;
      && |delivered + last.delivered| + |last.state.queue| <= |delivered| + |st.queue| + |done|
      && (|delivered + last.delivered| + |last.state.queue| == |delivered| + |st.queue| + |done|
          <==> !Swallows(st, Some(p)) && FindsPlaces(st, p))
      && (!Swallows(st, Some(p)) && FindsPlaces(st, p) && delivered + st.queue == base ==>
            (delivered + last.delivered) + last.state.queue == base + done)
  {
    DrainRoundConserves(st, p);
    hide Feed, DrainRound, QueueInv, Swallows;
    var last, done := DrainRound(st, p), Feed(st.partial, p).done;
    assert |last.delivered| + |last.state.queue| == |last.delivered + last.state.queue|;
    assert done[..|done|] == done;
    if !Swallows(st, Some(p)) && FindsPlaces(st, p) && delivered + st.queue == base {
      Chained(delivered, last.delivered, last.state.queue, st.queue, base, done);
    }
  }

  /**
   Under the clients' drain loop, over any packets: every section finished is delivered, in order, at
   the latest with the next usable packet, if and only if in every round the sections find a
   place and no unusable packet finds exactly one section waiting.
   */
  lemma {:induction false} DrainRunDelivers(st: State, ps: seq<Packet>)
    requires QueueInv(st)
    ensures var run, fed := DrainRun(st, ps), FeedAll(st.partial, ps);
            && run.state.partial == fed.partial
            && (run.delivered + run.state.queue == st.queue + fed.done <==> NothingLost(st, ps))
            && |run.delivered| + |run.state.queue| <= |st.queue| + |fed.done|
            && (!NothingLost(st, ps) ==> |run.delivered| + |run.state.queue| < |st.queue| + |fed.done|)
  {
    hide Feed, DrainRound, QueueInv, Rest, Swallows;
    if ps == [] {
      assert [] + st.queue == st.queue + [];
    } else {
      var past, p := ps[..|ps| - 1], ps[|ps| - 1];
      var before, fed := DrainRun(st, past), FeedAll(st.partial, past);
      DrainRunDelivers(st, past);
      DrainRunInv(st, past);
      DrainRoundKeeps(before.state, p);
      DrainRoundCounts(before.state, st.queue + fed.done, before.delivered, p);
      assert st.queue + fed.done + Feed(fed.partial, p).done == st.queue + (fed.done + Feed(fed.partial, p).done);
    }
  }

  /** Sections this long cannot fill the queue's places under the drain loop: 8 * 23 > 183. */
  const SAFE_LENGTH: nat := 23

  lemma {:induction false} CountByLength(done: seq<seq<byte>>)
    requires forall s :: s in done ==> |s| >= SAFE_LENGTH
    ensures SAFE_LENGTH * |done| <= TotalLength(done)
  {
    if done != [] {
      CountByLength(done[1..]);
    }
  }

  lemma FewFinished(partial: Partial, p: Packet)
    requires forall s :: s in Feed(partial, p).done ==> |s| >= SAFE_LENGTH
    ensures |Feed(partial, p).done| <= 8
  {
    hide Feed;
    var done := Feed(partial, p).done;
    FeedCountsBytes(partial, p);
    if done != [] {
      forall s | s in done[1..] ensures s in done {}
      CountByLength(done[1..]);
    }
  }

  /** After a round only what its packet finished can wait. */
  lemma LittleWaits(st: State, p: Packet)
    requires QueueInv(st) && |Feed(st.partial, p).done| <= 8
    ensures |DrainRound(st, p).state.queue| <= 8
  {
    hide Feed, QueueInv;
    CallWithoutReset(st, p);
    UnreportedPop(st, p);
  }

  /** Sections of at least 23 bytes always find a place when at most eight wait at first. */
  lemma {:induction false} LongSectionsFindPlaces(st: State, ps: seq<Packet>)
    requires QueueInv(st) && |st.queue| <= 8
    requires forall s :: s in FeedAll(st.partial, ps).done ==> |s| >= SAFE_LENGTH
    ensures |DrainRun(st, ps).state.queue| <= 8
    ensures NothingLost(st, ps) <==> NothingSwallowed(st, ps)
  {
    hide Feed, QueueInv, DrainRound, Swallows;
    if ps != [] {
      var past, p := ps[..|ps| - 1], ps[|ps| - 1];
      var before := DrainRun(st, past).state;
      LongSectionsFindPlaces(st, past);
      DrainRunDelivers(st, past);
      DrainRunInv(st, past);
      FewFinished(before.partial, p);
      LittleWaits(before, p);
    }
  }

  /**
   Completeness under the drain loop, for sections of any length and whatever inert packets lie between:
   the sections packed are delivered or still queued, in order, if and only if nothing is lost.
   */
  lemma SectionsDrained(st: State, ps: seq<Packet>, pid: nat, cc: nat, ss: seq<seq<byte>>)
    requires QueueInv(st) && Carries(Stripped(ps), pid, cc, NO_CUT, ss) && AllSections(ss)
    ensures DrainRun(st, ps).delivered + DrainRun(st, ps).state.queue == st.queue + ss <==> NothingLost(st, ps)
    ensures |st.queue| <= 8 && (forall s :: s in ss ==> |s| >= SAFE_LENGTH) ==>
      (NothingLost(st, ps) <==> NothingSwallowed(st, ps))
  {
    hide Feed, DrainRound, QueueInv;
    CarriedAmidInert(st.partial, ps, pid, cc, NO_CUT, ss);
    assert [] + ss == ss;
    DrainRunDelivers(st, ps);
    if |st.queue| <= 8 && forall s :: s in ss ==> |s| >= SAFE_LENGTH {
      LongSectionsFindPlaces(st, ps);
    }
  }

  /** If all packets are usable, nothing is swallowed. */
  lemma {:induction false} UsableNeverSwallow(st: State, ps: seq<Packet>)
    requires forall p :: p in ps ==> Classify(p).Continue? || Classify(p).Begin?
    ensures NothingSwallowed(st, ps)
    decreases |ps|
  {
    if ps != [] {
      UsableNeverSwallow(st, ps[..|ps| - 1]);
      assert ps[|ps| - 1] in ps;
    }
  }
}

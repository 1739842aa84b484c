/**
 The queue of finished sections: how full any calls can make it, and the clients' drain loop,
 which calls get_ts_packet with a packet and, while it returns true, again without one.
 */
module DemuxQueue {
  import opened Bytes
  import opened Sections
  import opened Demux

  // ---------- pushing without the reset ----------

  /** What PushAll does when there is room for all the bytes: it keeps as many sections as there are places. */
  lemma {:induction false} PushAllKeepsPrefix(queue: seq<seq<byte>>, done: seq<seq<byte>>)
    requires |queue| <= MAX_FULL_PACKETS
    requires TotalLength(queue) + TotalLength(done) < FULL_BUFFER_SIZE
    ensures PushAll(queue, done) == queue + done[..Min(|done|, MAX_FULL_PACKETS - |queue|)]
    decreases |done|
  {
    if done != [] {
      FlattenSnoc(queue, done[0]);
      PushAllKeepsPrefix(Push(queue, done[0]), done[1..]);
      if |queue| < MAX_FULL_PACKETS {
        var k := Min(|done|, MAX_FULL_PACKETS - |queue|);
        assert done[..k] == [done[0]] + done[1..][..k - 1];
        assert queue + [done[0]] + done[1..][..k - 1] == queue + done[..k];
      }
    }
  }

  lemma {:induction false} PrefixShorter(queue: seq<seq<byte>>, k: nat)
    requires k <= |queue|
    ensures TotalLength(queue[..k]) <= TotalLength(queue)
  {
    if k > 0 {
      assert queue[..k][1..] == queue[1..][..k - 1];
      PrefixShorter(queue[1..], k - 1);
    }
  }

  // ---------- how full any calls make the queue ----------

  /** The bytes of the section being collected. */
  function Collected(partial: Partial): nat
  {
    if partial.Collecting? then |partial.data| else 0
  }

  /** A packet's bytes go to the sections it finishes and to the one it leaves collected. */
  lemma FeedCountsBytes(partial: Partial, p: Packet)
    ensures var out := Feed(partial, p);
            && TotalLength(out.done) + Collected(out.partial) <= Collected(partial) + 184
            && (out.done != [] ==> TotalLength(out.done[1..]) + Collected(out.partial) <= 183)
  {
    var pid, cc := Pid(p), ContinuityCounter(p);
    match Classify(p)
    case Skip =>
    case Drop =>
    case Continue(payload) =>
      ExtendCountsBytes(partial, payload, pid, cc);
    case Begin(tail, body) =>
      ExtendCountsBytes(partial, tail, pid, cc);
      StartCountsBytes(body, pid, cc);
      var before := if tail == [] then [] else Extend(partial, tail, pid, cc).done;
      BytesOfParts(before, Start(body, pid, cc).done);
  }

  lemma {:induction false} StartCountsBytes(buf: seq<byte>, pid: nat, cc: nat)
    ensures var out := Start(buf, pid, cc); TotalLength(out.done) + Collected(out.partial) <= |buf|
    decreases |buf|
  {
    if |buf| >= 3 && |buf| >= FullLength(buf) {
      var n := FullLength(buf);
      var rest := buf[n..];
      if rest != [] && rest[0] != 0xff {
        StartCountsBytes(rest, pid, cc);
      }
      FlattenAppend(Check(buf[..n]), AfterSection(rest, pid, cc).done);
    }
  }

  lemma ExtendCountsBytes(partial: Partial, buf: seq<byte>, pid: nat, cc: nat)
    ensures var out := Extend(partial, buf, pid, cc);
            && |out.done| <= 1 && (out.done != [] ==> out.partial == Idle)
            && TotalLength(out.done) + Collected(out.partial) <= Collected(partial) + |buf|
  {
  }

  lemma BytesOfParts(before: seq<seq<byte>>, after: seq<seq<byte>>)
    requires |before| <= 1
    ensures TotalLength(before + after) == TotalLength(before) + TotalLength(after)
    ensures before + after != [] ==> TotalLength((before + after)[1..]) <= TotalLength(after)
  {
    FlattenAppend(before, after);
    if before == [] {
      assert before + after == after;
    } else {
      assert (before + after)[1..] == after;
    }
  }

  /**
   Wherever the queue is cut, what lies behind the cut and the section being collected are
   bounded: one long section, and 184 bytes for each place that is taken.
   */
  ghost predicate QueueInv(st: State)
  {
    && |st.queue| <= MAX_FULL_PACKETS && Collected(st.partial) <= MAX_TS_SIZE
    && forall i :: 0 <= i <= |st.queue| ==>
         TotalLength(st.queue[i..]) + Collected(st.partial) <= MAX_TS_SIZE + 184 * (MAX_FULL_PACKETS - i)
  }

  lemma FeedCollectsBounded(partial: Partial, p: Packet)
    requires Collected(partial) <= MAX_TS_SIZE
    ensures Collected(Feed(partial, p).partial) <= MAX_TS_SIZE
  {
    if Classify(p).Begin? {
      StartCountsBytes(Classify(p).body, Pid(p), ContinuityCounter(p));
    }
  }

  lemma PopKeeps(st: State)
    requires QueueInv(st)
    ensures QueueInv(st.(queue := Rest(st.queue))) && QueueInv(st.(queue := []))
    ensures forall i :: 0 <= i <= |Rest(st.queue)| ==>
              TotalLength(Rest(st.queue)[i..]) + Collected(st.partial) <= MAX_TS_SIZE + 184 * (MAX_FULL_PACKETS - 1 - i)
  {
    var left := Rest(st.queue);
    forall i | 0 <= i <= |left|
      ensures TotalLength(left[i..]) + Collected(st.partial) <= MAX_TS_SIZE + 184 * (MAX_FULL_PACKETS - 1 - i)
    {
      if st.queue != [] {
        assert left[i..] == st.queue[i + 1..];
      }
    }
  }

  /** The bytes behind any cut after some sections were added. */
  lemma AddedBehindCut(left: seq<seq<byte>>, done: seq<seq<byte>>, k: nat, i: nat)
    requires k <= |done| && i <= |left|
    ensures TotalLength((left + done[..k])[i..]) <= TotalLength(left[i..]) + TotalLength(done)
  {
    assert (left + done[..k])[i..] == left[i..] + done[..k];
    FlattenAppend(left[i..], done[..k]);
    PrefixShorter(done, k);
  }

  lemma AddedCut(left: seq<seq<byte>>, done: seq<seq<byte>>, k: nat, j: nat)
    requires 0 < j <= k <= |done|
    ensures TotalLength((left + done[..k])[|left| + j..]) <= TotalLength(done[1..])
  {
    var some := done[1..][..k - 1];
    assert (left + done[..k])[|left| + j..] == some[j - 1..];
    PrefixShorter(done[1..], k - 1);
    SuffixShorter(some, j - 1);
  }

  lemma {:induction false} SuffixShorter(queue: seq<seq<byte>>, k: nat)
    requires k <= |queue|
    ensures TotalLength(queue[k..]) <= TotalLength(queue)
  {
    if k == 0 {
      assert queue[0..] == queue;
    } else {
      assert queue[k..] == queue[1..][k - 1..];
      SuffixShorter(queue[1..], k - 1);
    }
  }

  /** What is left after a pop and the sections of a packet fit the buffer. */
  lemma RoomForBytes(st: State, p: Packet)
    requires QueueInv(st)
    ensures |Rest(st.queue)| < MAX_FULL_PACKETS
    ensures TotalLength(Rest(st.queue)) + TotalLength(Feed(st.partial, p).done) < FULL_BUFFER_SIZE
  {
    hide Feed;
    FeedCountsBytes(st.partial, p);
    PopKeeps(st);
    assert Rest(st.queue)[0..] == Rest(st.queue);
  }

  /** The bound behind one cut, from the bounds on what was left and on what was added. */
  lemma KeptBehindCut(left: seq<seq<byte>>, done: seq<seq<byte>>, k: nat, i: nat, before: nat, after: nat)
    requires k <= |done| && i <= |left| + k <= MAX_FULL_PACKETS
    requires i <= |left| ==> TotalLength(left[i..]) + before <= MAX_TS_SIZE + 184 * (MAX_FULL_PACKETS - 1 - i)
    requires TotalLength(done) + after <= before + 184
    requires done != [] ==> TotalLength(done[1..]) + after <= 183
    ensures TotalLength((left + done[..k])[i..]) + after <= MAX_TS_SIZE + 184 * (MAX_FULL_PACKETS - i)
  {
    hide TotalLength;
    if i <= |left| {
      AddedBehindCut(left, done, k, i);
    } else {
      AddedCut(left, done, k, i - |left|);
    }
  }

  lemma KeptAfterFeed(st: State, p: Packet, k: nat)
    requires QueueInv(st) && k <= |Feed(st.partial, p).done| && |Rest(st.queue)| + k <= MAX_FULL_PACKETS
    ensures QueueInv(State(Feed(st.partial, p).partial, Rest(st.queue) + Feed(st.partial, p).done[..k]))
  {
    hide Feed, Rest, TotalLength, Collected;
    var left, out := Rest(st.queue), Feed(st.partial, p);
    FeedCountsBytes(st.partial, p);
    FeedCollectsBounded(st.partial, p);
    PopKeeps(st);
    forall i | 0 <= i <= |left| + k
      ensures TotalLength((left + out.done[..k])[i..]) + Collected(out.partial) <= MAX_TS_SIZE
        + 184 * (MAX_FULL_PACKETS - i)
    {
      KeptBehindCut(left, out.done, k, i, Collected(st.partial), Collected(out.partial));
    }
  }

  /**
   In such a state the sections of any packet fit the buffer, so only the places limit what is
   kept, and the state after the call is such a state again.
   */
  lemma CallWithoutReset(st: State, p: Packet)
    requires QueueInv(st)
    ensures var left, done := Rest(st.queue), Feed(st.partial, p).done;
            && |left| < MAX_FULL_PACKETS && TotalLength(left) + TotalLength(done) < FULL_BUFFER_SIZE
            && Call(st, Some(p)).state.queue == left + done[..Min(|done|, MAX_FULL_PACKETS - |left|)]
    ensures QueueInv(Call(st, Some(p)).state)
  {
    hide Feed, Rest, TotalLength, QueueInv, PushAll;
    var left, done := Rest(st.queue), Feed(st.partial, p).done;
    RoomForBytes(st, p);
    PushAllKeepsPrefix(left, done);
    KeptAfterFeed(st, p, Min(|done|, MAX_FULL_PACKETS - |left|));
  }

  lemma InitialQueueInv()
    ensures QueueInv(State(Idle, []))
  {
  }

  /** It holds after any calls, with packets or without, in any order. */
  lemma {:induction false} RunQueueInv(st: State, calls: seq<Option<Packet>>)
    requires QueueInv(st)
    ensures QueueInv(Run(st, calls).state)
    decreases |calls|
  {
    hide Call, QueueInv;
    if calls != [] {
      var before, last := Run(st, calls[..|calls| - 1]).state, calls[|calls| - 1];
      RunQueueInv(st, calls[..|calls| - 1]);
      match last
      case None =>
        PopKeeps(before);
        PopOnly(before);
      case Some(p) =>
        CallWithoutReset(before, p);
    }
  }

  lemma PopOnly(st: State)
    ensures Call(st, None).state == st.(queue := Rest(st.queue))
  {
  }

  /**
   The "too much data" reset is out of reach in every run from the start: whatever the packets
   hold and whenever the client pops, there is room for all the bytes of the next packet's
   sections, and only the number of places can be short.
   */
  lemma ResetUnreachable(calls: seq<Option<Packet>>, p: Packet)
    ensures var st := Run(State(Idle, []), calls).state;
            var left, done := Rest(st.queue), Feed(st.partial, p).done;
            && |left| < MAX_FULL_PACKETS && TotalLength(left) + TotalLength(done) < FULL_BUFFER_SIZE
            && Call(st, Some(p)).state.queue == left + done[..Min(|done|, MAX_FULL_PACKETS - |left|)]
  {
    hide Feed, Call, QueueInv;
    InitialQueueInv();
    RunQueueInv(State(Idle, []), calls);
    CallWithoutReset(Run(State(Idle, []), calls).state, p);
  }

  // ---------- what is popped and what is reported ----------

  /**
   A section leaves the queue without being reported exactly when the packet of that call is of
   no use and the section was the only one waiting: the early exits answer from the queue left
   behind instead of from the pop.
   */
  lemma UnreportedPop(st: State, p: Packet)
    ensures var reply := Call(st, Some(p));
            (reply.popped.Some? && !reply.available)
            <==> (Classify(p).Skip? || Classify(p).Drop?) && |st.queue| == 1
  {
    assert Rest(st.queue) == [] <==> |st.queue| <= 1;
  }

  /** The sections that left the queue in a run, reported or not. */
  ghost function HandedOut(st: State, calls: seq<Option<Packet>>): seq<seq<byte>>
    decreases |calls|
  {
    if calls == [] then []
    else
      var past := calls[..|calls| - 1];
      var reply := Call(Run(st, past).state, calls[|calls| - 1]);
      HandedOut(st, past) + if reply.popped.Some? then [reply.popped.value] else []
  }

  /** An unusable packet arrives while exactly one section waits. */
  ghost predicate Swallows(st: State, call: Option<Packet>)
  {
    call.Some? && (Classify(call.value).Skip? || Classify(call.value).Drop?) && |st.queue| == 1
  }

  ghost predicate NeverSwallows(st: State, calls: seq<Option<Packet>>)
    decreases |calls|
  {
    calls == [] ||
    (NeverSwallows(st, calls[..|calls| - 1]) && !Swallows(Run(st, calls[..|calls| - 1]).state, calls[|calls| - 1]))
  }

  lemma CallReports(st: State, call: Option<Packet>)
    ensures var reply := Call(st, call);
            reply.popped.Some? && !reply.available <==> Swallows(st, call)
  {
    if call.Some? {
      UnreportedPop(st, call.value);
    }
  }

  /**
   The sections reported in a run are those that left the queue, if and only if no unusable
   packet arrives while exactly one section waits.
   */
  lemma {:induction false} RunReports(st: State, calls: seq<Option<Packet>>)
    ensures |Run(st, calls).delivered| <= |HandedOut(st, calls)|
    ensures Run(st, calls).delivered == HandedOut(st, calls) <==> NeverSwallows(st, calls)
    ensures |Run(st, calls).delivered| == |HandedOut(st, calls)| <==> NeverSwallows(st, calls)
    decreases |calls|
  {
    hide Call, Swallows;
    if calls != [] {
      var past := calls[..|calls| - 1];
      RunReports(st, past);
      CallReports(Run(st, past).state, calls[|calls| - 1]);
    }
  }

  // ---------- the drain loop ----------

  /** Calls without a packet until the queue is empty hand out the whole queue, in order. */
  ghost function Drained(st: State): (delivered: seq<seq<byte>>)
    decreases |st.queue|
  {
    var reply := Call(st, None);
    if reply.available then [reply.popped.value] + Drained(reply.state) else []
  }

  lemma {:induction false} DrainedIsQueue(st: State)
    ensures Drained(st) == st.queue
    decreases |st.queue|
  {
    if st.queue != [] {
      DrainedIsQueue(Call(st, None).state);
      assert st.queue == [st.queue[0]] + st.queue[1..];
    }
  }

  datatype Round = Round(state: State, delivered: seq<seq<byte>>)

  /** One packet through the drain loop. */
  ghost function DrainRound(st: State, p: Packet): Round
  {
    var reply := Call(st, Some(p));
    if reply.available && reply.popped.Some? then
      Round(reply.state.(queue := []), [reply.popped.value] + Drained(reply.state))
    else
      Round(reply.state, [])
  }

  /** The calls a drain round makes. */
  lemma DrainRoundKeeps(st: State, p: Packet)
    requires QueueInv(st)
    ensures QueueInv(DrainRound(st, p).state)
    ensures DrainRound(st, p).state.partial == Feed(st.partial, p).partial
  {
    hide Feed;
    CallWithoutReset(st, p);
    PopKeeps(Call(st, Some(p)).state);
  }

  // ---------- places can run out ----------

  const STUFFING_SECTION: seq<byte> := [0x72, 0, 0]

  function StuffingTables(n: nat): (s: seq<byte>)
    ensures |s| == 3 * n
  {
    if n == 0 then [] else STUFFING_SECTION + StuffingTables(n - 1)
  }

  lemma {:induction false} StuffingTablesFinish(n: nat, pid: nat, cc: nat)
    requires n > 0
    ensures |Start(StuffingTables(n), pid, cc).done| == n
  {
    var buf := StuffingTables(n);
    assert buf[..3] == STUFFING_SECTION && buf[3..] == StuffingTables(n - 1);
    assert FullLength(buf) == 3;
    if n > 1 {
      assert buf[3..][0] == StuffingTables(n - 1)[0] == 0x72;
      StuffingTablesFinish(n - 1, pid, cc);
    }
  }

  lemma SimplePacket(p: Packet, body: seq<byte>)
    requires |body| == 183 && body[0] == 0x72 && p == [0x47, 0x40, 0x11, 0x10, 0] + body
    ensures Classify(p) == Begin([], body)
  {
    assert p[3] == 0x10 && p[4] == 0 && p[5] == body[0];
    assert p[5..5] == [] && p[5..] == body;
  }

  /** A packet of 61 empty stuffing tables: one drain round keeps 15 of them and loses 46. */
  lemma PlacesRunOut(p: Packet)
    requires p == [0x47, 0x40, 0x11, 0x10, 0] + StuffingTables(61)
    ensures |Feed(Idle, p).done| == 61
    ensures |DrainRound(State(Idle, []), p).state.queue| == 15 && DrainRound(State(Idle, []), p).delivered == []
  {
    assert StuffingTables(61)[0] == 0x72;
    SimplePacket(p, StuffingTables(61));
    StuffingTablesFinish(61, Pid(p), ContinuityCounter(p));
    hide StuffingTables, Start, QueueInv, Classify, PushAll, TotalLength;
    InitialQueueInv();
    CallWithoutReset(State(Idle, []), p);
  }

  ghost function DrainRun(st: State, ps: seq<Packet>): Round
  {
    if ps == [] then Round(st, [])
    else
      var before := DrainRun(st, ps[..|ps| - 1]);
      var last := DrainRound(before.state, ps[|ps| - 1]);
      Round(last.state, before.delivered + last.delivered)
  }

  /** Runs of the drain loop are runs of calls, so the reset is out of their reach too. */
  lemma {:induction false} DrainRunInv(st: State, ps: seq<Packet>)
    requires QueueInv(st)
    ensures QueueInv(DrainRun(st, ps).state)
  {
    if ps != [] {
      DrainRunInv(st, ps[..|ps| - 1]);
      DrainRoundKeeps(DrainRun(st, ps[..|ps| - 1]).state, ps[|ps| - 1]);
    }
  }
}

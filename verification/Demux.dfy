/**
 Section reassembly, as a function.

 The abstract state is the section being collected, if any, and the queue of finished
 sections.  What one packet does is decided by its header (Classify); the bytes it brings
 extend the collected section (Extend) or begin new ones (Start).
 */
module Demux {
  import opened Bytes
  import opened Sections

  const MAX_FULL_PACKETS: nat := 15
  const FULL_BUFFER_SIZE: nat := 8192

  datatype Partial = Idle | Collecting(data: seq<byte>, pid: nat, cc: nat)

  /** The new collecting state and the sections finished on the way. */
  datatype Outcome = Outcome(partial: Partial, done: seq<seq<byte>>)

  // ---------- what a packet asks for ----------

  datatype Action =
    | Skip                                            // nothing usable: the state is kept
    | Drop                                            // pointer past the end: forget the collected section
    | Continue(payload: seq<byte>)                    // more of the collected section
    | Begin(tail: seq<byte>, body: seq<byte>)         // the end of one section, then new ones

  function StartsLikePes(p: Packet): bool
  {
    p[4] == 0 && p[5] == 0 && p[6] == 1
  }

  function PayloadOffset(p: Packet): nat
  {
    if Afc(p) >= 2 then 4 + p[4] as nat + 1 else 4
  }

  /** No payload, an adaptation field that overruns the packet, or something that looks like PES. */
  predicate Unusable(p: Packet)
  {
    || Afc(p) == 2
    || PayloadOffset(p) >= TS_PACKET_SIZE
    || (Afc(p) == 1 && StartsLikePes(p))
  }

  function Classify(p: Packet): (a: Action)
    ensures a.Skip? <==> Unusable(p)
    ensures a.Continue? ==> 1 <= |a.payload| <= 184
    ensures a.Begin? ==> |a.tail| + |a.body| <= 183
  {
    if Unusable(p) then Skip
    else if Pusi(p) then ClassifyStart(p, PayloadOffset(p))
    else Continue(p[PayloadOffset(p)..])
  }

  /** A packet in which sections begin: the pointer field says where. */
  function ClassifyStart(p: Packet, offset: nat): (a: Action)
    requires offset < TS_PACKET_SIZE
    ensures a.Drop? || a.Begin?
    ensures a.Begin? ==> |a.tail| + |a.body| == 187 - offset
  {
    var first := offset + 1 + p[offset] as nat;
    if first > TS_PACKET_SIZE then Drop else Begin(p[offset + 1..first], p[first..])
  }

  // ---------- bytes into sections ----------

  ghost function Check(section: seq<byte>): (done: seq<seq<byte>>)
    requires |section| >= 3
  {
    if Accepts(section) then [section] else []
  }

  /** New sections start at buf, one after the other, until stuffing or the end. */
  ghost function Start(buf: seq<byte>, pid: nat, cc: nat): Outcome
    decreases |buf|, 0
  {
    if |buf| < 3 || |buf| < FullLength(buf) then
      Outcome(Collecting(buf, pid, cc), [])
    else
      var n := FullLength(buf);
      var next := AfterSection(buf[n..], pid, cc);
      Outcome(next.partial, Check(buf[..n]) + next.done)
  }

  ghost function AfterSection(rest: seq<byte>, pid: nat, cc: nat): Outcome
    decreases |rest|, 1
  {
    if rest == [] || rest[0] == 0xff then Outcome(Idle, []) else Start(rest, pid, cc)
  }

  /** More bytes for the collected section; anything after its end is ignored. */
  ghost function Extend(partial: Partial, buf: seq<byte>, pid: nat, cc: nat): Outcome
  {
    match partial
    case Idle => Outcome(Idle, [])
    case Collecting(data, pid0, cc0) =>
      if cc0 == cc then Outcome(partial, [])
      else if (cc0 + 1) % 16 != cc || pid0 != pid then Outcome(Idle, [])
      else Append(data + buf, pid, cc)
  }

  ghost function Append(total: seq<byte>, pid: nat, cc: nat): Outcome
  {
    if |total| < 3 then Outcome(Idle, [])
    else if FullLength(total) <= Min(|total|, MAX_TS_SIZE) then
      Outcome(Idle, Check(total[..FullLength(total)]))
    else
      Outcome(Collecting(total[..Min(|total|, MAX_TS_SIZE)], pid, cc), [])
  }

  ghost function Act(partial: Partial, a: Action, pid: nat, cc: nat): Outcome
  {
    match a
    case Skip => Outcome(partial, [])
    case Drop => Outcome(Idle, [])
    case Continue(payload) => Extend(partial, payload, pid, cc)
    case Begin(tail, body) =>
      var before := if tail == [] then [] else Extend(partial, tail, pid, cc).done;
      var after := Start(body, pid, cc);
      Outcome(after.partial, before + after.done)
  }

  ghost function Feed(partial: Partial, p: Packet): Outcome
  {
    Act(partial, Classify(p), Pid(p), ContinuityCounter(p))
  }

  // ---------- the queue of finished sections ----------

  /** A full queue drops the section; a full buffer drops everything. */
  function Push(queue: seq<seq<byte>>, s: seq<byte>): seq<seq<byte>>
  {
    if |queue| >= MAX_FULL_PACKETS then queue
    else if TotalLength(queue) + |s| >= FULL_BUFFER_SIZE then []
    else queue + [s]
  }

  function PushAll(queue: seq<seq<byte>>, done: seq<seq<byte>>): seq<seq<byte>>
    decreases |done|
  {
    if done == [] then queue else PushAll(Push(queue, done[0]), done[1..])
  }

  datatype State = State(partial: Partial, queue: seq<seq<byte>>)

  /** The state after a call, the section handed out, and the value returned. */
  datatype Reply = Reply(state: State, popped: Option<seq<byte>>, available: bool)

  function Head(queue: seq<seq<byte>>): Option<seq<byte>>
  {
    if queue == [] then None else Some(queue[0])
  }

  function Rest(queue: seq<seq<byte>>): seq<seq<byte>>
  {
    if queue == [] then [] else queue[1..]
  }

  /** One call of get_ts_packet; input None is the call that only pops. */
  ghost function Call(st: State, input: Option<Packet>): Reply
  {
    var popped := Head(st.queue);
    var left := Rest(st.queue);
    match input
    case None => Reply(st.(queue := left), popped, popped.Some?)
    case Some(p) =>
      var out := Feed(st.partial, p);
      var st' := State(out.partial, PushAll(left, out.done));
      // the early exits answer from the queue as it is after the pop
      var early := Classify(p).Skip? || Classify(p).Drop?;
      Reply(st', popped, if early then left != [] else popped.Some?)
  }

  // ---------- runs ----------

  /** A client's view of a run: the state it leaves and the sections reported to it, in order. */
  datatype Session = Session(state: State, delivered: seq<seq<byte>>)

  ghost function Run(st: State, calls: seq<Option<Packet>>): Session
    decreases |calls|
  {
    if calls == [] then Session(st, [])
    else
      var before := Run(st, calls[..|calls| - 1]);
      var reply := Call(before.state, calls[|calls| - 1]);
      Session(reply.state,
              before.delivered + if reply.available && reply.popped.Some? then [reply.popped.value] else [])
  }

  /** The packets of a run, without the calls that only pop. */
  function Packets(calls: seq<Option<Packet>>): seq<Packet>
  {
    if calls == [] then []
    else
      Packets(calls[..|calls| - 1]) + match calls[|calls| - 1] case Some(p) => [p] case None => []
  }

  lemma {:induction false} PushAllAppend(queue: seq<seq<byte>>, a: seq<seq<byte>>, b: seq<seq<byte>>)
    ensures PushAll(queue, a + b) == PushAll(PushAll(queue, a), b)
    decreases |a|
  {
    if a == [] {
      assert a + b == b;
    } else {
      assert (a + b)[1..] == a[1..] + b;
      PushAllAppend(Push(queue, a[0]), a[1..], b);
    }
  }
}

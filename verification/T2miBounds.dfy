/**
 When the T2-MI demultiplexer stays in its buffers: it copies what it gathers without a check of
 its own, and can take back more of the output than a call has written.
 */
module T2miBounds {
  import opened Bytes
  import opened Sections
  import opened T2mi
  import opened T2miStream
  import opened T2miRun
  import opened T2miEncode

  // ---------- the baseband frames in the packets ----------

  /** The baseband frames that are complete, and the one that is being gathered. */
  datatype Gather = Gather(frames: seq<seq<byte>>, open: Option<seq<byte>>)

  const NOTHING: Gather := Gather([], None)

  /** The same after one more packet; a pointer out of the packet is ignored while a frame is open. */
  function Taken(g: Gather, v: View): Gather
  {
    if PayloadStart(v).None? then g
    else
      var s := PayloadStart(v).value;
      if !Starts(v) then
        if g.open.Some? then g.(open := Some(g.open.value + v[s..188])) else g
      else if g.open.Some? && v[s] >= 183 then g
      else
        var at := s + 1 + v[s] as nat;
        Gather(if g.open.Some? then g.frames + [g.open.value + v[s + 1..Min(at, |v|)]] else g.frames,
               if at < 188 && v[at] == 0 then Some(v[at..188]) else None)
  }

  function TakenAll(g: Gather, vs: seq<View>): Gather
  {
    if vs == [] then g else Taken(TakenAll(g, vs[..|vs| - 1]), vs[|vs| - 1])
  }

  // ---------- the conditions ----------

  /** Where the pointer leads is still in the input buffer. */
  predicate Reads(g: Gather, v: View)
  {
    PayloadStart(v).Some? && Starts(v) ==>
      var s := PayloadStart(v).value;
      (g.open.Some? && v[s] >= 183) || s + 1 + v[s] as nat < |v|
  }

  predicate AllRead(g: Gather, vs: seq<View>)
  {
    vs == [] || (AllRead(g, vs[..|vs| - 1]) && Reads(TakenAll(g, vs[..|vs| - 1]), vs[|vs| - 1]))
  }

  /** No frame is longer than the gathering buffer, complete or not. */
  ghost predicate Fits(g: Gather)
  {
    (forall f :: f in g.frames ==> |f| <= T2_SIZE) && (g.open.Some? ==> |g.open.value| <= T2_SIZE)
  }

  /** Whether no frame was processed yet, and where the output ends. */
  datatype Place = Place(first: bool, at: nat)

  /** The gathering buffer with a frame in it. */
  function Padded(f: seq<byte>): (t2: Buffer)
    ensures |f| <= T2_SIZE ==> t2[..|f|] == f
  {
    if |f| <= T2_SIZE then f + Repeat(0, T2_SIZE - |f|) else f[..T2_SIZE]
  }

  /** Where the output ends after the user packets from pos on are copied. */
  function CopiedTo(pos: nat, upl: nat, dnp: nat, at: nat, size: nat): nat
    decreases T2_SIZE - pos
  {
    if pos < FullLimit(upl) then
      if pos > T2_SIZE - 187 || at + TS_PACKET_SIZE > size then at
      else CopiedTo(pos + 187 + dnp, upl, dnp, at + TS_PACKET_SIZE, size)
    else if pos < upl then
      if pos + (upl - pos) + 1 > T2_SIZE || at + (upl - pos) + 1 > size then at else at + (upl - pos) + 1
    else at
  }

  function PlaceAfter(p: Place, t2: Buffer, plp: byte, size: nat): Place
  {
    var tail := |Tail(p.first, t2)|;
    if !ForPlp(t2, plp) then p
    else if Syncd(t2) == MAX_SYNC then Place(p.first, if p.at + Dfl(t2) > size then p.at else p.at + Dfl(t2))
    else if p.at + tail > size then p
    else
      var aligned := p.at + tail - (p.at + tail) % TS_PACKET_SIZE;
      Place(false, CopiedTo(19 + Syncd(t2), Dfl(t2) + 19, Dnp(t2), aligned, size))
  }

  function Places(p: Place, fs: seq<seq<byte>>, plp: byte, size: nat): Place
  {
    if fs == [] then p else PlaceAfter(Places(p, fs[..|fs| - 1], plp, size), Padded(fs[|fs| - 1]), plp, size)
  }

  predicate FrameWritesInside(p: Place, f: seq<byte>, plp: byte, size: nat)
  {
    WritesInside(p.first, Padded(f), plp, p.at, size)
  }

  /** No frame takes back more than its call has written and then writes. */
  predicate AllWriteInside(p: Place, fs: seq<seq<byte>>, plp: byte, size: nat)
  {
    fs == [] ||
    (AllWriteInside(p, fs[..|fs| - 1], plp, size)
     && FrameWritesInside(Places(p, fs[..|fs| - 1], plp, size), fs[|fs| - 1], plp, size))
  }

  // ---------- one frame ----------

  lemma {:induction false} CopiedLength(t2: Buffer, pos: nat, upl: nat, dnp: nat, out: seq<byte>, size: nat)
    ensures |CopyUsers(t2, pos, upl, dnp, out, size)| == CopiedTo(pos, upl, dnp, |out|, size)
    decreases T2_SIZE - pos
  {
    if pos < FullLimit(upl) && pos <= T2_SIZE - 187 && |out| + TS_PACKET_SIZE <= size {
      CopiedLength(t2, pos + 187 + dnp, upl, dnp, out + [TS_SYNC_BYTE] + t2[pos..pos + 187], size);
    }
  }

  lemma ExtractPlace(first: bool, t2: Buffer, plp: byte, out: seq<byte>, size: nat)
    ensures var e := Extract(first, t2, plp, out, size);
      Place(e.first, |e.out|) == PlaceAfter(Place(first, |out|), t2, plp, size)
  {
    hide ForPlp, Tail, Syncd, Dnp, CopyUsers, CopiedTo;
    CopiedLength(t2, 19 + Syncd(t2), Dfl(t2) + 19, Dnp(t2), Aligned(out + Tail(first, t2)), size);
  }

  /** More is taken back than was written exactly when the output is inside a packet that the tail does not complete. */
  lemma StepsBackExactlyWhen(at: nat, tail: nat)
    ensures StepsBack(at, tail) <==> at % TS_PACKET_SIZE > 0 && at % TS_PACKET_SIZE + tail < TS_PACKET_SIZE
  {
    var r := at % 188;
    assert at == 188 * (at / 188) + r;
    if tail < 188 {
      if r + tail < 188 {
        Remainder188(at / 188, r + tail);
        assert at + tail == 188 * (at / 188) + (r + tail);
      } else {
        Remainder188(at / 188 + 1, r + tail - 188);
        assert at + tail == 188 * (at / 188 + 1) + (r + tail - 188);
      }
    }
  }

  // ---------- one packet ----------

  /** The state is that of the demultiplexer with the frame open. */
  ghost predicate Held(st: State, open: Option<seq<byte>>)
  {
    && (st.active <==> open.Some?)
    && (open.Some? ==> st.pos == |open.value| <= T2_SIZE && st.t2 == Padded(open.value))
    && (open.None? ==> st.t2 == Padded([]))
  }

  lemma PutPadded(f: seq<byte>, tail: seq<byte>)
    requires |f| + |tail| <= T2_SIZE
    ensures Put(Padded(f), |f|, tail) == Padded(f + tail)
  {
  }

  lemma PutFirst(head: seq<byte>)
    requires |head| <= T2_SIZE
    ensures Put(Padded([]), 0, head) == Padded(head) && Padded([]) == Repeat(0, T2_SIZE)
  {
    PutPadded([], head);
    assert [] + head == head;
  }

  /** One packet more is within bounds: it is read inside the input, and what it adds and closes fits. */
  ghost predicate StepInside(g: Gather, v: View, p: Place, plp: byte, size: nat)
  {
    var h := Taken(g, v);
    && Reads(g, v)
    && (h.open.Some? ==> |h.open.value| <= T2_SIZE)
    && (|h.frames| > |g.frames| ==>
          |h.frames[|h.frames| - 1]| <= T2_SIZE && FrameWritesInside(p, h.frames[|h.frames| - 1], plp, size))
  }

  function PlaceNext(g: Gather, v: View, p: Place, plp: byte, size: nat): Place
  {
    var fs := Taken(g, v).frames;
    if |fs| > |g.frames| then PlaceAfter(p, Padded(fs[|fs| - 1]), plp, size) else p
  }

  ghost predicate Agrees(st: State, v: View, plp: byte, out: seq<byte>, size: nat, g: Gather)
  {
    var p := Place(st.first, |out|);
    && (Safe(st, v, plp, |out|, size) <==> StepInside(g, v, p, plp, size))
    && (Safe(st, v, plp, |out|, size) ==>
          var r := Step(st, v, plp, out, size);
          Held(r.st, Taken(g, v).open) && Place(r.st.first, |r.out|) == PlaceNext(g, v, p, plp, size))
  }

  lemma StepMore(st: State, v: View, plp: byte, out: seq<byte>, size: nat, g: Gather)
    requires Held(st, g.open) && (PayloadStart(v).None? || !Starts(v))
    ensures Agrees(st, v, plp, out, size, g)
  {
    hide Padded, Extract;
    if PayloadStart(v).Some? && g.open.Some? {
      var s := PayloadStart(v).value;
      if st.pos + 188 - s <= T2_SIZE {
        PutPadded(g.open.value, v[s..188]);
      }
    }
  }

  /** What is closed, and where that leaves the output. */
  lemma CloseHeld(st: State, tail: seq<byte>, plp: byte, out: seq<byte>, size: nat, open: Option<seq<byte>>)
    requires Held(st, open)
    ensures open.Some? ==>
      (ClosesSafely(st, tail, plp, |out|, size) <==>
         |open.value + tail| <= T2_SIZE && FrameWritesInside(Place(st.first, |out|), open.value + tail, plp, size))
    ensures (st.active ==> st.pos + |tail| <= T2_SIZE) ==>
      var r := Close(st, tail, plp, out, size);
      && Held(r.st, None)
      && Place(r.st.first, |r.out|)
         == if open.None? then Place(st.first, |out|)
            else PlaceAfter(Place(st.first, |out|), Padded(open.value + tail), plp, size)
  {
    hide Padded, Extract, WritesInside, PlaceAfter;
    PutFirst([]);
    if open.Some? && |open.value| + |tail| <= T2_SIZE {
      PutPadded(open.value, tail);
      ExtractPlace(st.first, Padded(open.value + tail), plp, out, size);
    }
  }

  lemma OpenHeld(st: State, head: seq<byte>, packetType: byte)
    requires Held(st, None) && |head| <= 188
    ensures Held(Open(st, head, packetType), if packetType == 0 && head != [] then Some(head) else None)
  {
    hide Padded;
    PutFirst(head);
  }

  /** A pointer that is followed, into the input: the bytes before and behind it. */
  ghost predicate Points(v: View, tail: seq<byte>, head: seq<byte>, packetType: byte)
  {
    PayloadStart(v).Some? && Starts(v) &&
    var s := PayloadStart(v).value;
    var at := s + 1 + v[s] as nat;
    at < |v| && tail == v[s + 1..at] && head == v[Min(at, 188)..188] && packetType == v[at]
  }

  lemma StartIs(st: State, v: View, plp: byte, out: seq<byte>, size: nat, tail: seq<byte>, head: seq<byte>, t: byte)
    requires Points(v, tail, head, t) && !(st.active && v[PayloadStart(v).value] >= 183)
    ensures Safe(st, v, plp, |out|, size) <==> (st.active ==> ClosesSafely(st, tail, plp, |out|, size))
    ensures Safe(st, v, plp, |out|, size) ==>
      && (st.active ==> st.pos + |tail| <= T2_SIZE) && |head| <= 188
      && var c := Close(st, tail, plp, out, size);
         Step(st, v, plp, out, size) == Result(Open(c.st, head, t), c.out)
  {
    hide PayloadStart, Starts, Close, Open, WritesInside;
  }

  lemma StartTaken(g: Gather, v: View, tail: seq<byte>, head: seq<byte>, t: byte)
    requires Points(v, tail, head, t) && !(g.open.Some? && v[PayloadStart(v).value] >= 183)
    ensures Reads(g, v) && |head| <= 188
    ensures Taken(g, v) == Gather(if g.open.Some? then g.frames + [g.open.value + tail] else g.frames,
                                  if t == 0 && head != [] then Some(head) else None)
  {
    hide PayloadStart, Starts;
  }

  lemma StepPoints(st: State, v: View, plp: byte, out: seq<byte>, size: nat, g: Gather,
    tail: seq<byte>, head: seq<byte>, t: byte)
    requires Held(st, g.open) && Points(v, tail, head, t) && !(g.open.Some? && v[PayloadStart(v).value] >= 183)
    ensures Agrees(st, v, plp, out, size, g)
  {
    StartTaken(g, v, tail, head, t);
    StartIs(st, v, plp, out, size, tail, head, t);
    CloseHeld(st, tail, plp, out, size, g.open);
    if st.active ==> st.pos + |tail| <= T2_SIZE {
      OpenHeld(Close(st, tail, plp, out, size).st, head, t);
    }
    HeldActive(st, g.open);
    hide Held, ClosesSafely, Close, Open, FrameWritesInside, PlaceAfter, Padded, Safe, Step, Taken, Reads, Points;
  }

  lemma HeldActive(st: State, open: Option<seq<byte>>)
    requires Held(st, open)
    ensures st.active <==> open.Some?
  {
  }

  lemma StepStart(st: State, v: View, plp: byte, out: seq<byte>, size: nat, g: Gather)
    requires Held(st, g.open) && PayloadStart(v).Some? && Starts(v)
    ensures Agrees(st, v, plp, out, size, g)
  {
    var s := PayloadStart(v).value;
    var at := s + 1 + v[s] as nat;
    if g.open.Some? && v[s] >= 183 {
      StepIgnored(st, v, plp, out, size, g);
    } else if at < |v| {
      hide Agrees, Held;
      StepPoints(st, v, plp, out, size, g, v[s + 1..at], v[Min(at, 188)..188], v[at]);
    } else {
      HeldActive(st, g.open);
      hide Held, ClosesSafely, Step, Taken;
    }
  }

  lemma StepIgnored(st: State, v: View, plp: byte, out: seq<byte>, size: nat, g: Gather)
    requires Held(st, g.open) && PayloadStart(v).Some? && Starts(v)
    requires g.open.Some? && v[PayloadStart(v).value] >= 183
    ensures Agrees(st, v, plp, out, size, g)
  {
    hide PayloadStart, Starts, ClosesSafely, Close, Open, Padded, PlaceAfter;
  }

  // ---------- whole runs ----------

  lemma TakenGrows(g: Gather, v: View)
    ensures var h := Taken(g, v);
      && (h.frames == g.frames || (|h.frames| == |g.frames| + 1 && h.frames[..|g.frames|] == g.frames))
      && (Fits(h) ==> Fits(g))
      && (h.frames == g.frames && g.open.Some? ==> h.open.Some?)
  {
    var h := Taken(g, v);
    if |h.frames| > |g.frames| {
      assert h.frames[|g.frames|] in h.frames;
      assert forall f :: f in g.frames ==> f in h.frames;
    }
  }

  /** Taking one packet more, the conditions hold on if they held and the step is inside. */
  lemma ConditionsNext(g: Gather, v: View, p0: Place, plp: byte, size: nat)
    ensures var h := Taken(g, v);
      && Places(p0, h.frames, plp, size) == PlaceNext(g, v, Places(p0, g.frames, plp, size), plp, size)
      && (Reads(g, v) && Fits(h) && AllWriteInside(p0, h.frames, plp, size)
          <==> (Reads(g, v) && Fits(g) && AllWriteInside(p0, g.frames, plp, size)
                && StepInside(g, v, Places(p0, g.frames, plp, size), plp, size)))
  {
    TakenGrows(g, v);
    hide Reads, Taken, PlaceAfter, FrameWritesInside, Padded;
    var h := Taken(g, v);
    if |h.frames| > |g.frames| {
      assert h.frames == g.frames + [h.frames[|g.frames|]];
    }
  }

  /**
   From any state with a frame open or none: a run stays in all its buffers if and only if each
   pointer that is followed stays in the input, no frame is longer than the gathering buffer, and no
   frame of the PLP takes back more output than its call has written and then writes.
   */
  lemma {:induction false} RunsExactlyWhen(vs: seq<View>, plp: byte, st0: State, out0: seq<byte>, size: nat,
    open0: Option<seq<byte>>)
    requires Held(st0, open0)
    ensures var g, r := TakenAll(Gather([], open0), vs), Run(vs, plp, st0, out0, size);
      var p0 := Place(st0.first, |out0|);
      && (r.Some? <==> AllRead(Gather([], open0), vs) && Fits(g) && AllWriteInside(p0, g.frames, plp, size))
      && (r.Some? ==>
            Held(r.value.st, g.open)
            && Place(r.value.st.first, |r.value.out|) == Places(p0, g.frames, plp, size))
    decreases |vs|
  {
    if vs != [] {
      var past, v := vs[..|vs| - 1], vs[|vs| - 1];
      var g, p0 := TakenAll(Gather([], open0), past), Place(st0.first, |out0|);
      RunsExactlyWhen(past, plp, st0, out0, size, open0);
      ConditionsNext(g, v, p0, plp, size);
      hide Safe, Step, Taken, Reads, Fits, AllWriteInside, Held, Places, PlaceNext, StepInside;
      var before := Run(past, plp, st0, out0, size);
      if before.Some? {
        StepAgrees(before.value.st, v, plp, before.value.out, size, g);
      }
    }
  }

  lemma StepAgrees(st: State, v: View, plp: byte, out: seq<byte>, size: nat, g: Gather)
    requires Held(st, g.open)
    ensures Agrees(st, v, plp, out, size, g)
  {
    hide Agrees, Held, PayloadStart, Starts;
    if PayloadStart(v).Some? && Starts(v) {
      StepStart(st, v, plp, out, size, g);
    } else {
      StepMore(st, v, plp, out, size, g);
    }
  }

  // ---------- in terms of the T2-MI packets ----------

  predicate IsBaseband(t: seq<byte>) { t != [] && t[0] == 0 }

  function Baseband(ts: seq<seq<byte>>): seq<seq<byte>>
  {
    if ts == [] then []
    else Baseband(ts[..|ts| - 1]) + if IsBaseband(ts[|ts| - 1]) then [ts[|ts| - 1]] else []
  }

  function OpenFrame(a: Assembly): Option<seq<byte>>
  {
    if a.open.Some? && IsBaseband(a.open.value) then a.open else None
  }

  /** The baseband frames among the T2-MI packets. */
  function FramesOf(a: Assembly): Gather { Gather(Baseband(a.done), OpenFrame(a)) }

  lemma ItemTaken(a: Assembly, v: View)
    requires WellPointed(v) && (a.open.Some? ==> a.open.value != [])
    ensures Reads(FramesOf(a), v) && Taken(FramesOf(a), v) == FramesOf(Extend(a, ItemOf(v)))
    ensures var b := Extend(a, ItemOf(v)); b.open.Some? ==> b.open.value != []
  {
    match ItemOf(v)
    case Begin(tail, head) =>
      PointsInside(v, tail, head);
      StartTaken(FramesOf(a), v, tail, head, head[0]);
      hide Taken, Reads, ItemOf;
      BeginFrames(a, tail, head);
    case _ =>
      MoreTaken(a, v);
  }

  lemma MoreTaken(a: Assembly, v: View)
    requires WellPointed(v) && (a.open.Some? ==> a.open.value != []) && !ItemOf(v).Begin?
    ensures Reads(FramesOf(a), v) && Taken(FramesOf(a), v) == FramesOf(Extend(a, ItemOf(v)))
    ensures var b := Extend(a, ItemOf(v)); b.open.Some? ==> b.open.value != []
  {
    hide Baseband;
  }

  lemma PointsInside(v: View, tail: seq<byte>, head: seq<byte>)
    requires WellPointed(v) && ItemOf(v) == Begin(tail, head)
    ensures head != [] && Points(v, tail, head, head[0]) && v[PayloadStart(v).value] < 183
  {
    hide PayloadStart, Starts;
  }

  lemma BeginFrames(a: Assembly, tail: seq<byte>, head: seq<byte>)
    requires (a.open.Some? ==> a.open.value != []) && head != []
    ensures var g := FramesOf(a);
      FramesOf(Extend(a, Begin(tail, head)))
      == Gather(if g.open.Some? then g.frames + [g.open.value + tail] else g.frames,
                if head[0] == 0 && head != [] then Some(head) else None)
  {
    hide Baseband;
    if a.open.Some? {
      BasebandSnoc(a.done, a.open.value + tail);
      assert (a.open.value + tail)[0] == a.open.value[0];
    }
  }

  lemma BasebandSnoc(ts: seq<seq<byte>>, t: seq<byte>)
    ensures Baseband(ts + [t]) == if IsBaseband(t) then Baseband(ts) + [t] else Baseband(ts)
  {
    assert (ts + [t])[..|ts|] == ts;
  }

  /** What is gathered from packets whose pointers point into them are the baseband frames they carry. */
  lemma {:induction false} AssemblyTaken(vs: seq<View>)
    requires AllPointed(vs)
    ensures AllRead(NOTHING, vs) && TakenAll(NOTHING, vs) == FramesOf(Assemble(vs))
    ensures Assemble(vs).open.Some? ==> Assemble(vs).open.value != []
    decreases |vs|
  {
    if vs != [] {
      hide Taken, Reads, FramesOf, Extend;
      AssemblyTaken(vs[..|vs| - 1]);
      ItemTaken(Assemble(vs[..|vs| - 1]), vs[|vs| - 1]);
    }
  }

  /**
   From an idle start, packets whose pointers point into them are taken in safely if and only if no
   baseband frame is longer than the gathering buffer and none takes back more output than its call has
   written and then writes; T2-MI packets of other types may be anything.
   */
  lemma SafeExactlyWhen(vs: seq<View>, plp: byte, st0: State, out0: seq<byte>, size: nat)
    requires AllPointed(vs) && Held(st0, None)
    ensures var g := FramesOf(Assemble(vs));
      Run(vs, plp, st0, out0, size).Some?
      <==> Fits(g) && AllWriteInside(Place(st0.first, |out0|), g.frames, plp, size)
  {
    hide Held, Fits, AllWriteInside, FramesOf, Run, TakenAll, AllRead;
    AssemblyTaken(vs);
    RunsExactlyWhen(vs, plp, st0, out0, size, None);
  }

  /** Frames that map a stream of user packets without a gap never step back. */
  lemma MappedWritesInside(vs: seq<View>, plp: byte, st0: State, out0: seq<byte>, size: nat,
    x: Stream, from: nat, until: nat)
    requires AllPointed(vs) && T2miRun.Fits(vs) && until <= |x.s|
    requires Mapped(Assemble(vs).done, x, plp, from, until)
    requires Held(st0, None) && st0.first
    requires |out0| % TS_PACKET_SIZE == 0 && |out0| + |Render(x, FirstStart(x, from), until)| <= size
    ensures AllWriteInside(Place(true, |out0|), Baseband(Assemble(vs).done), plp, size)
  {
    hide Fits, AllWriteInside, Mapped, Render, Run;
    RunRenders(vs, plp, st0, out0, size, x, from, until);
    SafeExactlyWhen(vs, plp, st0, out0, size);
  }

  // ---------- a frame that never ends ----------

  /** A packet in which a baseband frame begins, and one that goes on with it. */
  function FrameStart(): (v: View)
    ensures |v| == 188 && v[1] == 0x40 && v[3] == 0x10 && v[4] == 0 && v[5] == 0
  {
    [0x47, 0x40, 0, 0x10, 0, 0] + Repeat(0, 182)
  }

  function FrameGoesOn(): (v: View)
    ensures |v| == 188 && v[1] == 0 && v[3] == 0x10
  {
    [0x47, 0, 0, 0x10] + Repeat(0, 184)
  }

  function EndlessFrame(n: nat): (vs: seq<View>)
    ensures |vs| == n + 1
  {
    if n == 0 then [FrameStart()] else EndlessFrame(n - 1) + [FrameGoesOn()]
  }

  /** A frame of n bytes is open and none was completed. */
  ghost predicate Gathering(g: Gather, n: nat)
  {
    g.frames == [] && g.open.Some? && |g.open.value| == n
  }

  lemma {:induction false} EndlessGrows(n: nat)
    ensures Gathering(TakenAll(NOTHING, EndlessFrame(n)), 183 + 184 * n) && AllRead(NOTHING, EndlessFrame(n))
  {
    hide *;
    if n == 0 {
      FirstTaken();
      OneMore([], FrameStart());
    } else {
      EndlessGrows(n - 1);
      EndlessStep(n);
      OneMore(EndlessFrame(n - 1), FrameGoesOn());
      NextTaken(TakenAll(NOTHING, EndlessFrame(n - 1)), 183 + 184 * (n - 1));
    }
  }

  lemma EndlessStep(n: nat)
    requires n > 0
    ensures EndlessFrame(n) == EndlessFrame(n - 1) + [FrameGoesOn()]
  {
  }

  lemma OneMore(vs: seq<View>, v: View)
    ensures TakenAll(NOTHING, vs + [v]) == Taken(TakenAll(NOTHING, vs), v)
    ensures AllRead(NOTHING, vs + [v]) <==> AllRead(NOTHING, vs) && Reads(TakenAll(NOTHING, vs), v)
  {
    hide Taken, Reads;
    assert (vs + [v])[..|vs|] == vs;
  }

  lemma FirstTaken()
    ensures Gathering(Taken(NOTHING, FrameStart()), 183) && Reads(NOTHING, FrameStart())
    ensures TakenAll(NOTHING, []) == NOTHING && AllRead(NOTHING, []) && EndlessFrame(0) == [] + [FrameStart()]
  {
  }

  lemma NextTaken(g: Gather, n: nat)
    requires Gathering(g, n)
    ensures Gathering(Taken(g, FrameGoesOn()), n + 184) && Reads(g, FrameGoesOn())
  {
  }

  /** A baseband frame that begins and is followed by 356 packets without a start overruns the buffer; 355 do not. */
  lemma EndlessFrameOverruns(n: nat, plp: byte, st0: State, out0: seq<byte>, size: nat)
    requires Held(st0, None)
    ensures Run(EndlessFrame(n), plp, st0, out0, size).Some? <==> n <= 355
  {
    hide EndlessFrame, TakenAll, AllRead, Run, Held;
    EndlessGrows(n);
    RunsExactlyWhen(EndlessFrame(n), plp, st0, out0, size, None);
  }

  // ---------- a frame that steps back ----------

  /** A frame of 288 bytes of which the first 187 are a user packet: a packet and a half when written. */
  function Half(plp: byte): seq<byte>
  {
    Frame(Stream(Repeat(0, 288), false), plp, 0, 288)
  }

  lemma HalfHeader(plp: byte)
    requires plp < 128
    ensures var t2 := Padded(Half(plp));
      ForPlp(t2, plp) && Syncd(t2) == 0 && Dfl(t2) == 288 && Dnp(t2) == 0
    ensures IsBaseband(Half(plp)) && 1 <= |Half(plp)| <= T2_SIZE
  {
    var x := Stream(Repeat(0, 288), false);
    FrameIsFrame(x, plp, 0, 288);
    hide Frame, Padded;
    FrameData(Half(plp), Padded(Half(plp)), x, plp, 0, 288);
  }

  /** The first leaves the output inside a packet if there is room; then the second steps back. */
  lemma HalfPlaces(plp: byte, size: nat)
    requires plp < 128
    ensures PlaceAfter(Place(true, 0), Padded(Half(plp)), plp, size)
         == Place(false, if size < 188 then 0 else if size < 290 then 188 else 290)
    ensures FrameWritesInside(Place(true, 0), Half(plp), plp, size)
    ensures FrameWritesInside(PlaceAfter(Place(true, 0), Padded(Half(plp)), plp, size), Half(plp), plp, size)
      <==> size < 376
  {
    HalfHeader(plp);
    hide Half, Padded, Syncd, Dfl, Dnp, ForPlp;
    CopiedHalf(size);
  }

  lemma CopiedHalf(size: nat)
    ensures CopiedTo(19, 307, 0, 0, size) == if size < 188 then 0 else if size < 290 then 188 else 290
  {
    assert CopiedTo(206, 307, 0, 188, size) == if 290 > size then 188 else 290;
  }

  /** A frame that was lost between two others makes the second write out of the output buffer. */
  lemma LostFrameStepsBack(plp: byte, st0: State, size: nat)
    requires plp < 128 && Held(st0, None) && st0.first
    ensures var vs := CutAll([Half(plp), Half(plp), [0x10]]);
      && AllPointed(vs) && Fits(FramesOf(Assemble(vs)))
      && (Run(vs, plp, st0, [], size).Some? <==> size < 376)
  {
    var f := Half(plp);
    var ts := [f, f, [0x10]];
    HalfHeader(plp);
    HalfPlaces(plp, size);
    AllCarried(ts);
    TwoHalves(f, ts);
    hide Half, CutAll, Held, PlaceAfter, FrameWritesInside, Padded, Run, T2miRun.Fits;
    SafeExactlyWhen(CutAll(ts), plp, st0, [], size);
    TwoWrite(Place(true, 0), f, plp, size);
  }

  lemma TwoHalves(f: seq<byte>, ts: seq<seq<byte>>)
    requires ts == [f, f, [0x10]] && IsBaseband(f) && |f| <= T2_SIZE
    ensures FramesOf(LastOpen(ts)) == Gather([f, f], None) && Fits(Gather([f, f], None))
  {
    hide IsBaseband;
    BasebandSnoc([], f);
    BasebandSnoc([f], f);
    assert ts[..2] == [f] + [f] == [f, f] && [] + [f] == [f];
    assert LastOpen(ts) == Assembly([f, f], Some([0x10]));
    assert !IsBaseband([0x10]) by { NotBaseband(); }
  }

  lemma NotBaseband()
    ensures !IsBaseband([0x10])
  {
  }

  lemma TwoWrite(p: Place, f: seq<byte>, plp: byte, size: nat)
    ensures AllWriteInside(p, [f, f], plp, size)
      <==> FrameWritesInside(p, f, plp, size) && FrameWritesInside(PlaceAfter(p, Padded(f), plp, size), f, plp, size)
  {
    hide FrameWritesInside, PlaceAfter, Padded;
    assert [f, f][..1] == [f] && [f][..0] == [];
    assert Places(p, [], plp, size) == p && Places(p, [f], plp, size) == PlaceAfter(p, Padded(f), plp, size);
    assert AllWriteInside(p, [], plp, size);
    assert AllWriteInside(p, [f], plp, size) <==> FrameWritesInside(p, f, plp, size);
  }
}

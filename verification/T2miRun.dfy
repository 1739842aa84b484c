/** The T2-MI round trip over whole runs of transport stream packets. */
module T2miRun {
  import opened Bytes
  import opened Sections
  import opened T2mi
  import opened T2miStream

  /** A transport stream packet of the T2-MI PID and whatever follows it in the input buffer. */
  type View = v: seq<byte> | |v| >= 188 witness Repeat(0, 188)

  ghost predicate AllPointed(vs: seq<View>)
  {
    forall v :: v in vs ==> WellPointed(v)
  }

  /** The T2-MI packets carried by the packets. */
  ghost function Assemble(vs: seq<View>): Assembly
    requires AllPointed(vs)
  {
    if vs == [] then Assembly([], None)
    else Extend(Assemble(vs[..|vs| - 1]), ItemOf(vs[|vs| - 1]))
  }

  /** No T2-MI packet outgrows the buffer while it is gathered. */
  ghost predicate Fits(vs: seq<View>)
    requires AllPointed(vs)
  {
    vs == [] || (Fits(vs[..|vs| - 1]) && (Assemble(vs).open.Some? ==> |Assemble(vs).open.value| <= T2_SIZE))
  }

  /** All calls in turn, each adding to the output; None if one would leave its buffers. */
  function Run(vs: seq<View>, plp: byte, st0: State, out0: seq<byte>, size: nat): Option<Result>
  {
    if vs == [] then Some(Result(st0, out0))
    else
      var before := Run(vs[..|vs| - 1], plp, st0, out0, size);
      var v := vs[|vs| - 1];
      if before.Some? && Safe(before.value.st, v, plp, |before.value.out|, size)
      then Some(Step(before.value.st, v, plp, before.value.out, size))
      else None
  }

  /** A baseband frame is being gathered exactly when the open T2-MI packet has type 0. */
  ghost predicate Tracks(st: State, open: Option<seq<byte>>)
  {
    (open.Some? ==> open.value != []) &&
    if open.Some? && open.value[0] == 0
    then st.active && st.pos == |open.value| <= T2_SIZE && st.t2[..st.pos] == open.value
    else !st.active
  }

  lemma PutEnds(t2: Buffer, pos: nat, bytes: seq<byte>)
    requires pos + |bytes| <= T2_SIZE
    ensures Put(t2, pos, bytes)[..pos + |bytes|] == t2[..pos] + bytes
  {
  }

  lemma StepSkipped(st: State, v: View, plp: byte, out: seq<byte>, size: nat)
    requires PayloadStart(v).None?
    ensures Safe(st, v, plp, |out|, size) && Step(st, v, plp, out, size) == Result(st, out)
  {
  }

  lemma StepMiddle(st: State, v: View, plp: byte, out: seq<byte>, size: nat, open: Option<seq<byte>>)
    requires WellPointed(v) && ItemOf(v).Middle? && Tracks(st, open)
    requires open.Some? ==> |open.value + ItemOf(v).bytes| <= T2_SIZE
    ensures Safe(st, v, plp, |out|, size)
    ensures var r := Step(st, v, plp, out, size);
      && r.out == out && r.st.first == st.first
      && Tracks(r.st, if open.Some? then Some(open.value + ItemOf(v).bytes) else None)
  {
    if st.active {
      PutEnds(st.t2, st.pos, ItemOf(v).bytes);
    }
  }

  /** A packet in which a T2-MI packet starts closes the one before. */
  lemma StepBegin(st: State, v: View, plp: byte, out: seq<byte>, size: nat, open: Option<seq<byte>>)
    requires WellPointed(v) && ItemOf(v).Begin? && Tracks(st, open)
    requires open.Some? ==> |open.value + ItemOf(v).tail| <= T2_SIZE
    requires st.active ==> ClosesSafely(st, ItemOf(v).tail, plp, |out|, size)
    ensures Safe(st, v, plp, |out|, size) && (st.active ==> st.pos + |ItemOf(v).tail| <= T2_SIZE)
    ensures var r, c := Step(st, v, plp, out, size), Close(st, ItemOf(v).tail, plp, out, size);
      r.out == c.out && r.st.first == c.st.first && Tracks(r.st, Some(ItemOf(v).head))
  {
    hide Extract;
    var s, tail, head := PayloadStart(v).value, ItemOf(v).tail, ItemOf(v).head;
    var offset := 1 + v[s] as nat;
    assert offset < 184 && s + offset < 188;
    var c := Close(st, tail, plp, out, size);
    assert head[0] == v[s + offset];
    PutEnds(c.st.t2, 0, head);
  }

  /** The output so far is the stream up to where the frames processed reach. */
  ghost predicate Outputs(r: Result, x: Stream, from: nat, until: nat, out0: seq<byte>)
    requires until <= |x.s|
  {
    && r.out == out0 + Render(x, FirstStart(x, from), until)
    && (r.st.first <==> from == until)
  }

  lemma {:induction false} MappedGrows(ts: seq<seq<byte>>, x: Stream, plp: byte, from: nat, until: nat)
    requires Mapped(ts, x, plp, from, until)
    ensures from == until || from + 188 <= until <= |x.s|
    decreases |ts|
  {
    hide Phase;
    if ts != [] {
      var t := ts[|ts| - 1];
      MappedGrows(ts[..|ts| - 1], x, plp, from, if Wanted(t, plp) then until - Dfl(t) else until);
    }
  }

  /** Where the stream stood before the T2-MI packet t, if it stands at until after it. */
  function Mid(t: seq<byte>, plp: byte, until: nat): nat
    requires |t| >= 8
  {
    if Wanted(t, plp) && |t| >= 19 && Dfl(t) <= until then until - Dfl(t) else until
  }

  lemma MappedBefore(before: seq<seq<byte>>, t: seq<byte>, x: Stream, plp: byte, from: nat, until: nat)
    requires Mapped(before + [t], x, plp, from, until)
    ensures 8 <= |t| <= T2_SIZE && Mapped(before, x, plp, from, Mid(t, plp, until))
    ensures Wanted(t, plp) ==> IsFrame(t, x, plp, Mid(t, plp, until), until)
    ensures !Wanted(t, plp) ==> Mid(t, plp, until) == until
  {
    hide Phase, IsFrame;
    assert (before + [t])[..|before|] == before;
  }

  /** Closing a T2-MI packet: a frame of the PLP adds its part of the stream, any other adds nothing. */
  lemma CloseExtends(st: State, open: seq<byte>, tail: seq<byte>, plp: byte, x: Stream, from: nat, until: nat,
                     before: seq<seq<byte>>, out: seq<byte>, out0: seq<byte>, size: nat)
    requires Tracks(st, Some(open)) && until <= |x.s|
    requires Mapped(before + [open + tail], x, plp, from, until) && 8 <= |open + tail|
    requires |out0| % TS_PACKET_SIZE == 0 && |out0| + |Render(x, FirstStart(x, from), until)| <= size
    requires Mid(open + tail, plp, until) <= |x.s|
      && Outputs(Result(st, out), x, from, Mid(open + tail, plp, until), out0)
    ensures st.active ==> ClosesSafely(st, tail, plp, |out|, size)
    ensures Outputs(Close(st, tail, plp, out, size), x, from, until, out0)
  {
    hide Phase, Render, Extract, IsFrame, Mapped, Mid, WritesInside;
    var t := open + tail;
    var mid := Mid(t, plp, until);
    MappedBefore(before, t, x, plp, from, until);
    MappedGrows(before, x, plp, from, mid);
    if st.active {
      PutEnds(st.t2, st.pos, tail);
      var t2 := Put(st.t2, st.pos, tail);
      assert t2[..|t|] == t;
      if Wanted(t, plp) {
        FrameLonger(t, x, plp, mid, until);
        FrameExtracts(t, t2, x, plp, mid, until, st.first, FirstStart(x, from), out0, size);
      } else {
        OtherIgnored(t, t2, plp, st.first, out, size);
      }
    }
  }

  lemma FrameLonger(t: seq<byte>, x: Stream, plp: byte, from: nat, until: nat)
    requires IsFrame(t, x, plp, from, until)
    ensures from < until
  {
  }

  lemma OtherIgnored(t: seq<byte>, t2: Buffer, plp: byte, first: bool, out: seq<byte>, size: nat)
    requires 8 <= |t| <= T2_SIZE && t2[..|t|] == t && t[0] == 0 && !Wanted(t, plp)
    ensures Extract(first, t2, plp, out, size) == Extracted(out, first) && WritesInside(first, t2, plp, |out|, size)
  {
    assert t2[7] == t2[..|t|][7];
  }

  lemma RunStarts(st0: State, out0: seq<byte>, x: Stream, plp: byte, from: nat, until: nat)
    requires !st0.active && st0.first && until <= |x.s| && Mapped([], x, plp, from, until)
    ensures Tracks(st0, None) && Outputs(Result(st0, out0), x, from, until, out0)
  {
    RenderBackwards(x, FirstStart(x, from), until);
  }

  lemma SameOutputs(r: Result, r2: Result, x: Stream, from: nat, until: nat, out0: seq<byte>)
    requires until <= |x.s| && Outputs(r, x, from, until, out0) && r.out == r2.out && r.st.first == r2.st.first
    ensures Outputs(r2, x, from, until, out0)
  {
  }

  lemma RenderSmaller(x: Stream, a: nat, mid: nat, until: nat)
    requires mid <= until <= |x.s|
    ensures |Render(x, a, mid)| <= |Render(x, a, until)|
  {
    if a <= mid {
      RenderJoin(x, a, mid, until);
    } else {
      RenderBackwards(x, a, mid);
    }
  }

  lemma MidFits(a: Assembly, tail: seq<byte>, plp: byte, x: Stream, from: nat, until: nat) returns (mid: nat)
    requires a.open.Some? && until <= |x.s| && Mapped(a.done + [a.open.value + tail], x, plp, from, until)
    ensures 8 <= |a.open.value + tail| <= T2_SIZE && mid == Mid(a.open.value + tail, plp, until) <= until
    ensures Mapped(a.done, x, plp, from, mid)
  {
    hide Mapped;
    MappedBefore(a.done, a.open.value + tail, x, plp, from, until);
    mid := Mid(a.open.value + tail, plp, until);
  }

  lemma BeginRenders(r: Result, v: View, plp: byte, size: nat, a: Assembly, x: Stream, from: nat, mid: nat,
    until: nat, out0: seq<byte>)
    requires WellPointed(v) && ItemOf(v).Begin? && Tracks(r.st, a.open) && mid <= until <= |x.s|
    requires var b := Extend(a, ItemOf(v)); Mapped(b.done, x, plp, from, until)
    requires a.open.None? ==> mid == until
    requires a.open.Some? ==>
      8 <= |a.open.value + ItemOf(v).tail| <= T2_SIZE && mid == Mid(a.open.value + ItemOf(v).tail, plp, until)
    requires |out0| % TS_PACKET_SIZE == 0 && |out0| + |Render(x, FirstStart(x, from), until)| <= size
    requires Outputs(r, x, from, mid, out0)
    ensures Safe(r.st, v, plp, |r.out|, size) && Tracks(Step(r.st, v, plp, r.out, size).st, Some(ItemOf(v).head))
    ensures Outputs(Step(r.st, v, plp, r.out, size), x, from, until, out0)
  {
    hide Phase, Render, Mapped, Step, Mid, Safe, Outputs, Extract, ClosesSafely;
    var tail := ItemOf(v).tail;
    if a.open.Some? {
      SameOutputs(r, Result(r.st, r.out), x, from, mid, out0);
      CloseExtends(r.st, a.open.value, tail, plp, x, from, until, a.done, r.out, out0, size);
    }
    StepBegin(r.st, v, plp, r.out, size, a.open);
    SameOutputs(Close(r.st, tail, plp, r.out, size), Step(r.st, v, plp, r.out, size), x, from, until, out0);
  }

  /**
   The packets carry T2-MI packets among which the PLP's frames map the stream from one position to
   another: the output is the stream from the first user packet start on, with sync bytes.
   */
  lemma {:induction false} RunRenders(vs: seq<View>, plp: byte, st0: State, out0: seq<byte>, size: nat,
                                      x: Stream, from: nat, until: nat)
    requires AllPointed(vs) && Fits(vs) && until <= |x.s|
    requires Mapped(Assemble(vs).done, x, plp, from, until)
    requires !st0.active && st0.first
    requires |out0| % TS_PACKET_SIZE == 0 && |out0| + |Render(x, FirstStart(x, from), until)| <= size
    ensures Run(vs, plp, st0, out0, size).Some?
    ensures Tracks(Run(vs, plp, st0, out0, size).value.st, Assemble(vs).open)
    ensures Outputs(Run(vs, plp, st0, out0, size).value, x, from, until, out0)
    decreases |vs|
  {
    hide Phase, Render, Mapped, Step, Tracks, Outputs, Mid;
    if vs == [] {
      RunStarts(st0, out0, x, plp, from, until);
    } else {
      var past, v := vs[..|vs| - 1], vs[|vs| - 1];
      var a := Assemble(past);
      match ItemOf(v)
      case Skipped =>
        RunRenders(past, plp, st0, out0, size, x, from, until);
        StepSkipped(Run(past, plp, st0, out0, size).value.st, v, plp, Run(past, plp, st0, out0, size).value.out, size);
      case Middle(_) =>
        RunRenders(past, plp, st0, out0, size, x, from, until);
        var r := Run(past, plp, st0, out0, size).value;
        StepMiddle(r.st, v, plp, r.out, size, a.open);
        SameOutputs(r, Step(r.st, v, plp, r.out, size), x, from, until, out0);
      case Begin(tail, head) =>
        var mid := until;
        if a.open.Some? {
          mid := MidFits(a, tail, plp, x, from, until);
        }
        RenderSmaller(x, FirstStart(x, from), mid, until);
        RunRenders(past, plp, st0, out0, size, x, from, mid);
        BeginRenders(Run(past, plp, st0, out0, size).value, v, plp, size, a, x, from, mid, until, out0);
    }
  }

  // ---------- in terms of user packets ----------

  /** Where user packet k starts. */
  function Start(x: Stream, k: nat): nat { if x.dnp then 188 * k else 187 * k }

  /** User packet k as a transport stream packet. */
  function UserPacket(x: Stream, k: nat): (p: seq<byte>)
    requires Start(x, k + 1) <= |x.s|
    ensures |p| == TS_PACKET_SIZE
  {
    [TS_SYNC_BYTE] + x.s[Start(x, k)..Start(x, k) + 187]
  }

  function UserPackets(x: Stream, a: nat, b: nat): seq<seq<byte>>
    requires Start(x, b) <= |x.s|
    decreases b
  {
    if b <= a then [] else UserPackets(x, a, b - 1) + [UserPacket(x, b - 1)]
  }

  lemma {:induction false} RenderUsers(x: Stream, a: nat, b: nat)
    requires a <= b && Start(x, b) <= |x.s|
    ensures Render(x, Start(x, a), Start(x, b)) == Flatten(UserPackets(x, a, b))
    decreases b
  {
    hide Phase, Render, Flatten, UserPacket;
    if a < b {
      RenderUsers(x, a, b - 1);
      RenderOneUser(x, b - 1);
      RenderJoin(x, Start(x, a), Start(x, b - 1), Start(x, b));
      FlattenSnoc(UserPackets(x, a, b - 1), UserPacket(x, b - 1));
    } else {
      RenderNone(x, Start(x, a));
      FlattenNone<byte>();
    }
  }

  lemma RenderOneUser(x: Stream, k: nat)
    requires Start(x, k + 1) <= |x.s|
    ensures Render(x, Start(x, k), Start(x, k + 1)) == UserPacket(x, k)
  {
    hide Phase, Render;
    StartPhase(x, k);
    RenderStride(x, Start(x, k), Start(x, k + 1));
  }

  lemma FlattenNone<T>()
    ensures Flatten<T>([]) == []
  {
  }

  lemma StartPhase(x: Stream, k: nat)
    ensures Phase(x, Start(x, k)) == 0
  {
    if x.dnp {
      Remainder188(k, 0);
    } else {
      Remainder187(k, 0);
    }
  }

  /** The number of the first user packet that starts at p or later. */
  function FirstUser(x: Stream, p: nat): nat { if x.dnp then (p + 187) / 188 else (p + 186) / 187 }

  lemma FirstUserStart(x: Stream, p: nat)
    ensures FirstStart(x, p) == Start(x, FirstUser(x, p))
  {
    var stride := Stride(x);
    var k := FirstUser(x, p);
    assert stride * k >= p && stride * k < p + stride;
    StartPhase(x, k);
    OneStart(x, p, stride * k, FirstStart(x, p));
  }

  /** Only one user packet starts in a stride. */
  lemma OneStart(x: Stream, p: nat, a: nat, b: nat)
    requires Phase(x, a) == 0 && Phase(x, b) == 0 && p <= a < p + Stride(x) && p <= b < p + Stride(x)
    ensures a == b
  {
    if a < b {
      PhaseAfter(x, a);
    } else if b < a {
      PhaseAfter(x, b);
    }
  }

  /** All user packets from the first that starts in the first frame up to the last come out in order. */
  lemma UserPacketsOut(vs: seq<View>, plp: byte, st0: State, out0: seq<byte>, size: nat, x: Stream, from: nat,
    last: nat)
    requires AllPointed(vs) && Fits(vs) && Start(x, last) <= |x.s|
    requires Mapped(Assemble(vs).done, x, plp, from, Start(x, last)) && FirstUser(x, from) <= last
    requires !st0.active && st0.first && |out0| % TS_PACKET_SIZE == 0
    requires |out0| + TS_PACKET_SIZE * (last - FirstUser(x, from)) <= size
    ensures Run(vs, plp, st0, out0, size).Some?
    ensures Run(vs, plp, st0, out0, size).value.out == out0 + Flatten(UserPackets(x, FirstUser(x, from), last))
  {
    hide Phase, Mapped, Render;
    FirstUserStart(x, from);
    RenderUsers(x, FirstUser(x, from), last);
    UsersLength(x, FirstUser(x, from), last);
    RunRenders(vs, plp, st0, out0, size, x, from, Start(x, last));
  }

  lemma {:induction false} UsersLength(x: Stream, a: nat, b: nat)
    requires a <= b && Start(x, b) <= |x.s|
    ensures |Flatten(UserPackets(x, a, b))| == TS_PACKET_SIZE * (b - a)
    decreases b
  {
    if a < b {
      UsersLength(x, a, b - 1);
      FlattenSnoc(UserPackets(x, a, b - 1), UserPacket(x, b - 1));
    }
  }
}

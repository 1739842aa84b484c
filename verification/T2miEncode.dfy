/** The other end of the T2-MI link: mapping user packets into frames and cutting the frames into packets. */
module T2miEncode {
  import opened Bytes
  import opened Sections
  import opened T2mi
  import opened T2miStream
  import opened T2miRun

  // ---------- transport stream packets ----------

  /** A packet with the payload, the rest of it filled by an adaptation field. */
  function TsPacket(start: bool, payload: seq<byte>): (v: View)
    requires 1 <= |payload| <= 184
    ensures |v| == 188
  {
    if |payload| == 184 then [0x47, if start then 0x40 else 0, 0, 0x10] + payload
    else [0x47, if start then 0x40 else 0, 0, 0x30, 183 - |payload|] + Repeat(0xff, 183 - |payload|) + payload
  }

  lemma PacketPayload(start: bool, payload: seq<byte>)
    requires 1 <= |payload| <= 184
    ensures var v := TsPacket(start, payload);
      PayloadStart(v) == Some(188 - |payload|) && v[188 - |payload|..] == payload && Starts(v) == start
  {
  }

  function FirstPacket(head: seq<byte>): View
    requires 1 <= |head| <= 183
  {
    TsPacket(true, [0] + head)
  }

  lemma PacketItems(bytes: seq<byte>)
    requires 1 <= |bytes| <= 184
    ensures WellPointed(TsPacket(false, bytes)) && ItemOf(TsPacket(false, bytes)) == Middle(bytes)
    ensures |bytes| <= 183 ==> WellPointed(FirstPacket(bytes)) && ItemOf(FirstPacket(bytes)) == Begin([], bytes)
  {
    hide TsPacket;
    PacketPayload(false, bytes);
    if |bytes| <= 183 {
      var payload := [0] + bytes;
      PacketPayload(true, payload);
      var v, s := FirstPacket(bytes), 188 - |payload|;
      assert v[s] == v[s..][0] == 0;
      assert v[s + 1..188] == v[s..][1..] == bytes;
    }
  }

  /** The rest of a T2-MI packet, 184 bytes at a time. */
  function CutRest(rest: seq<byte>): seq<View>
  {
    if rest == [] then []
    else [TsPacket(false, rest[..Min(|rest|, 184)])] + CutRest(rest[Min(|rest|, 184)..])
  }

  /** A T2-MI packet, beginning right after the pointer field. */
  function Cut(t: seq<byte>): seq<View>
  {
    if t == [] then [] else [FirstPacket(t[..Min(|t|, 183)])] + CutRest(t[Min(|t|, 183)..])
  }

  function CutAll(ts: seq<seq<byte>>): seq<View>
  {
    if ts == [] then [] else CutAll(ts[..|ts| - 1]) + Cut(ts[|ts| - 1])
  }

  /** The packets so far are sound and carry the assembly a. */
  ghost predicate Carry(vs: seq<View>, a: Assembly)
  {
    AllPointed(vs) && Fits(vs) && Assemble(vs) == a
  }

  lemma CarrySnoc(vs: seq<View>, v: View, a: Assembly)
    requires Carry(vs, a) && WellPointed(v)
    requires Extend(a, ItemOf(v)).open.Some? ==> |Extend(a, ItemOf(v)).open.value| <= T2_SIZE
    ensures Carry(vs + [v], Extend(a, ItemOf(v)))
  {
    assert (vs + [v])[..|vs|] == vs;
  }

  lemma Halves<T>(s: seq<T>, n: nat, before: seq<T>)
    requires n <= |s|
    ensures before + s == before + s[..n] + s[n..]
  {
    assert s == s[..n] + s[n..];
  }

  lemma NothingCut(vs: seq<View>, open: seq<byte>)
    ensures vs + CutRest([]) == vs && open + [] == open
  {
  }

  lemma CutRestStep(rest: seq<byte>)
    requires rest != []
    ensures var n := Min(|rest|, 184); CutRest(rest) == [TsPacket(false, rest[..n])] + CutRest(rest[n..])
  {
  }

  lemma {:induction false} RestCarried(vs: seq<View>, done: seq<seq<byte>>, open: seq<byte>, rest: seq<byte>)
    requires Carry(vs, Assembly(done, Some(open))) && |open| + |rest| <= T2_SIZE
    ensures Carry(vs + CutRest(rest), Assembly(done, Some(open + rest)))
    decreases |rest|
  {
    hide TsPacket, Carry, CutRest;
    if rest == [] {
      NothingCut(vs, open);
    } else {
      var n := Min(|rest|, 184);
      var v := TsPacket(false, rest[..n]);
      PacketItems(rest[..n]);
      CarrySnoc(vs, v, Assembly(done, Some(open)));
      RestCarried(vs + [v], done, open + rest[..n], rest[n..]);
      Halves(rest, n, open);
      Regroup(vs, [v], CutRest(rest[n..]));
      CutRestStep(rest);
    }
  }

  /** Cutting one more T2-MI packet completes those before it. */
  lemma CutCarried(vs: seq<View>, a: Assembly, t: seq<byte>)
    requires Carry(vs, a) && 1 <= |t| <= T2_SIZE
    ensures Carry(vs + Cut(t), Assembly(if a.open.Some? then a.done + [a.open.value] else a.done, Some(t)))
  {
    hide TsPacket, FirstPacket, Carry, CutRest;
    var n := Min(|t|, 183);
    var head := t[..n];
    PacketItems(head);
    CarrySnoc(vs, FirstPacket(head), a);
    assert a.open.Some? ==> a.open.value + [] == a.open.value;
    var done := if a.open.Some? then a.done + [a.open.value] else a.done;
    RestCarried(vs + [FirstPacket(head)], done, head, t[n..]);
    Halves(t, n, []);
    Regroup(vs, [FirstPacket(head)], CutRest(t[n..]));
    assert [] + t == t && [] + head == head;
  }

  /** All but the last T2-MI packet complete, the last one open. */
  ghost function LastOpen(ts: seq<seq<byte>>): Assembly
  {
    if ts == [] then Assembly([], None) else Assembly(ts[..|ts| - 1], Some(ts[|ts| - 1]))
  }

  lemma LastOpenSnoc(ts: seq<seq<byte>>)
    requires ts != []
    ensures var a := LastOpen(ts[..|ts| - 1]);
      LastOpen(ts) == Assembly(if a.open.Some? then a.done + [a.open.value] else a.done, Some(ts[|ts| - 1]))
  {
    var past := ts[..|ts| - 1];
    if past != [] {
      LastApart(past);
    }
  }

  lemma {:induction false} AllCarried(ts: seq<seq<byte>>)
    requires forall t :: t in ts ==> 1 <= |t| <= T2_SIZE
    ensures Carry(CutAll(ts), LastOpen(ts))
    decreases |ts|
  {
    hide Carry, CutAll, LastOpen;
    if ts == [] {
      NothingCarried();
    } else {
      AllCarried(ts[..|ts| - 1]);
      LastCarried(ts);
    }
  }

  lemma LastCarried(ts: seq<seq<byte>>)
    requires ts != [] && 1 <= |ts[|ts| - 1]| <= T2_SIZE
    requires Carry(CutAll(ts[..|ts| - 1]), LastOpen(ts[..|ts| - 1]))
    ensures Carry(CutAll(ts), LastOpen(ts))
  {
    hide Carry, CutAll, Cut, LastOpen;
    var past, t := ts[..|ts| - 1], ts[|ts| - 1];
    CutAllSnoc(ts);
    LastOpenSnoc(ts);
    CutCarried(CutAll(past), LastOpen(past), t);
  }

  lemma NothingCarried()
    ensures Carry(CutAll([]), LastOpen([]))
  {
    NothingOpen();
  }

  lemma CutAllSnoc(ts: seq<seq<byte>>)
    requires ts != []
    ensures CutAll(ts) == CutAll(ts[..|ts| - 1]) + Cut(ts[|ts| - 1])
  {
    hide Cut;
  }

  lemma NothingOpen()
    ensures LastOpen([]) == Assembly([], None)
  {
  }

  // ---------- frames ----------

  /** The baseband frame with x.s[from..until], in its T2-MI packet. */
  function Frame(x: Stream, plp: byte, from: nat, until: nat): seq<byte>
    requires from <= until <= |x.s| && until - from <= 8191
  {
    var dfl, syncd := (until - from) * 8, ToStart(x, from) * 8;
    [0, 0, 0, 0, 0, 0, 0, plp,
     0, if x.dnp then 4 else 0, 0, 0, 0, dfl / 256, dfl % 256, 0x47, syncd / 256, syncd % 256, 0]
    + x.s[from..until]
  }

  lemma FrameIsFrame(x: Stream, plp: byte, from: nat, until: nat)
    requires from + 188 <= until <= |x.s| && until - from <= 8191 && plp < 128
    ensures IsFrame(Frame(x, plp, from, until), x, plp, from, until) && |Frame(x, plp, from, until)| <= T2_SIZE
  {
    hide Phase;
    var t := Frame(x, plp, from, until);
    assert t[19..19 + (until - from)] == x.s[from..until];
  }

  /** Data fields end at the bounds; each holds between 188 and 8191 bytes. */
  predicate Bounds(x: Stream, bounds: seq<nat>)
  {
    && bounds != [] && (forall i :: 0 <= i < |bounds| ==> bounds[i] <= |x.s|)
    && forall i :: 0 <= i < |bounds| - 1 ==> bounds[i] + 188 <= bounds[i + 1] <= bounds[i] + 8191
  }

  function Frames(x: Stream, plp: byte, bounds: seq<nat>): (ts: seq<seq<byte>>)
    requires Bounds(x, bounds)
    ensures |ts| == |bounds| - 1
  {
    if |bounds| == 1 then []
    else
      var n := |bounds| - 1;
      Frames(x, plp, bounds[..n]) + [Frame(x, plp, bounds[n - 1], bounds[n])]
  }

  lemma {:induction false} FramesMapped(x: Stream, plp: byte, bounds: seq<nat>)
    requires Bounds(x, bounds) && plp < 128
    ensures Mapped(Frames(x, plp, bounds), x, plp, bounds[0], bounds[|bounds| - 1])
    ensures bounds[0] <= bounds[|bounds| - 1] && forall t :: t in Frames(x, plp, bounds) ==> 1 <= |t| <= T2_SIZE
    decreases |bounds|
  {
    hide Frame, IsFrame, Phase, Mapped;
    if |bounds| == 1 {
      NoneMapped(x, plp, bounds[0]);
    } else {
      var n := |bounds| - 1;
      var past, t := Frames(x, plp, bounds[..n]), Frame(x, plp, bounds[n - 1], bounds[n]);
      FramesMapped(x, plp, bounds[..n]);
      FrameIsFrame(x, plp, bounds[n - 1], bounds[n]);
      FrameMapped(past, t, x, plp, bounds[0], bounds[n - 1], bounds[n]);
    }
  }

  lemma NoneMapped(x: Stream, plp: byte, at: nat)
    ensures Mapped([], x, plp, at, at)
  {
  }

  lemma FrameMapped(past: seq<seq<byte>>, t: seq<byte>, x: Stream, plp: byte, from: nat, mid: nat, until: nat)
    requires Mapped(past, x, plp, from, mid) && IsFrame(t, x, plp, mid, until) && |t| <= T2_SIZE && from <= mid
    ensures Mapped(past + [t], x, plp, from, until) && |t| >= 19
  {
    hide Phase;
    assert (past + [t])[..|past|] == past;
  }

  /**
   The round trip: user packets mapped into frames of any admissible lengths, cut into transport
   stream packets and flushed by the start of another T2-MI packet, come out of the demultiplexer.
   */
  lemma MappedAndCutComesBack(x: Stream, plp: byte, bounds: seq<nat>, last: nat, flush: seq<byte>, st0: State,
    out0: seq<byte>, size: nat)
    requires Bounds(x, bounds) && plp < 128 && bounds[|bounds| - 1] == Start(x, last) && FirstUser(x, bounds[0]) <= last
    requires 1 <= |flush| <= 183
    requires !st0.active && st0.first && |out0| % TS_PACKET_SIZE == 0
    requires |out0| + TS_PACKET_SIZE * (last - FirstUser(x, bounds[0])) <= size
    ensures var vs := CutAll(Frames(x, plp, bounds) + [flush]);
      && Run(vs, plp, st0, out0, size).Some?
      && Run(vs, plp, st0, out0, size).value.out == out0 + Flatten(UserPackets(x, FirstUser(x, bounds[0]), last))
  {
    hide Frames, CutAll, Mapped, Run, UserPackets, Start, FirstUser;
    var ts := Frames(x, plp, bounds);
    FramesMapped(x, plp, bounds);
    assert forall t :: t in ts + [flush] ==> t in ts || t == flush;
    AllCarried(ts + [flush]);
    assert LastOpen(ts + [flush]).done == ts;
    UserPacketsOut(CutAll(ts + [flush]), plp, st0, out0, size, x, bounds[0], last);
  }
}

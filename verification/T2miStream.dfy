/** User packets mapped into baseband frames come out again, whole and in order. */
module T2miStream {
  import opened Bytes
  import opened Sections
  import opened T2mi

  // ---------- the stream of user packets, and what it should look like when written ----------

  /** User packets of 187 bytes, each followed by a deleted-null-packet count if dnp; s joins them all. */
  datatype Stream = Stream(s: seq<byte>, dnp: bool)

  function Phase(x: Stream, p: nat): (k: nat)
    ensures k < 188
  {
    if x.dnp then p % 188 else p % 187
  }

  function Stride(x: Stream): nat { if x.dnp then 188 else 187 }

  /** The bytes of a stride that are not written. */
  function Count(x: Stream): nat { if x.dnp then 1 else 0 }

  /** The written form of byte p: a sync byte starts a user packet, the null-packet count is dropped. */
  function Emit(x: Stream, p: nat): seq<byte>
    requires p < |x.s|
  {
    (if Phase(x, p) == 0 then [TS_SYNC_BYTE] else []) + (if Phase(x, p) == 187 then [] else [x.s[p]])
  }

  function Render(x: Stream, from: nat, until: nat): seq<byte>
    requires until <= |x.s|
    decreases until
  {
    if until <= from then [] else Render(x, from, until - 1) + Emit(x, until - 1)
  }

  /** The distance from p to the next start of a user packet. */
  function ToStart(x: Stream, p: nat): (d: nat)
    ensures d <= 187 && Phase(x, p + d) == 0
    ensures d == 0 <==> Phase(x, p) == 0
  {
    PhaseEnds(x, p);
    if Phase(x, p) == 0 then 0 else Stride(x) - Phase(x, p)
  }

  lemma Remainder188(q: nat, k: nat)
    requires k < 188
    ensures (188 * q + k) % 188 == k
  {
  }

  lemma Remainder187(q: nat, k: nat)
    requires k < 187
    ensures (187 * q + k) % 187 == k
  {
  }

  lemma PhaseInside(x: Stream, p: nat, k: nat)
    requires Phase(x, p) + k < Stride(x)
    ensures Phase(x, p + k) == Phase(x, p) + k
  {
    if x.dnp {
      Remainder188(p / 188, p % 188 + k);
      assert p + k == 188 * (p / 188) + (p % 188 + k);
    } else {
      Remainder187(p / 187, p % 187 + k);
      assert p + k == 187 * (p / 187) + (p % 187 + k);
    }
  }

  lemma PhaseEnds(x: Stream, p: nat)
    ensures Phase(x, p) < Stride(x) && Phase(x, p + (Stride(x) - Phase(x, p))) == 0
  {
    if x.dnp {
      Remainder188(p / 188 + 1, 0);
      assert p + (188 - p % 188) == 188 * (p / 188 + 1) + 0;
    } else {
      Remainder187(p / 187 + 1, 0);
      assert p + (187 - p % 187) == 187 * (p / 187 + 1) + 0;
    }
  }

  lemma PhaseBefore(x: Stream, p: nat)
    requires Phase(x, p) == 0 && p > 0
    ensures p >= Stride(x) && Phase(x, p - Stride(x)) == 0
  {
    if x.dnp {
      assert p == 188 * (p / 188) && (p - 188) == 188 * (p / 188 - 1) + 0;
      Remainder188(p / 188 - 1, 0);
    } else {
      assert p == 187 * (p / 187) && (p - 187) == 187 * (p / 187 - 1) + 0;
      Remainder187(p / 187 - 1, 0);
    }
  }

  lemma PhaseAfter(x: Stream, p: nat)
    requires Phase(x, p) == 0
    ensures Phase(x, p + Stride(x)) == 0
    ensures forall q :: p < q < p + Stride(x) ==> Phase(x, q) != 0
  {
    PhaseStride(x, p);
    hide Phase, Stride;
    forall q | p < q < p + Stride(x) ensures Phase(x, q) != 0 {
      PhaseInside(x, p, q - p);
    }
  }

  lemma PhaseStride(x: Stream, p: nat)
    ensures Phase(x, p + Stride(x)) == Phase(x, p)
  {
    if x.dnp {
      Plus188(p);
    } else {
      Plus187(p);
    }
  }

  lemma Plus188(p: nat)
    ensures (p + 188) % 188 == p % 188
  {
    Remainder188(p / 188 + 1, p % 188);
    assert p + 188 == 188 * (p / 188 + 1) + p % 188;
  }

  lemma Plus187(p: nat)
    ensures (p + 187) % 187 == p % 187
  {
    Remainder187(p / 187 + 1, p % 187);
    assert p + 187 == 187 * (p / 187 + 1) + p % 187;
  }

  lemma {:induction false} RenderJoin(x: Stream, a: nat, b: nat, c: nat)
    requires a <= b <= c <= |x.s|
    ensures Render(x, a, c) == Render(x, a, b) + Render(x, b, c)
    decreases c
  {
    hide Phase;
    if b < c {
      RenderJoin(x, a, b, c - 1);
    }
  }

  lemma {:induction false} RenderInside(x: Stream, from: nat, until: nat)
    requires from <= until <= |x.s| && 0 < Phase(x, from) && Phase(x, from) + (until - from) <= 187
    ensures Render(x, from, until) == x.s[from..until]
    decreases until
  {
    hide Phase;
    if from < until {
      RenderInside(x, from, until - 1);
      PhaseInside(x, from, until - 1 - from);
      assert x.s[from..until] == x.s[from..until - 1] + [x.s[until - 1]];
    }
  }

  lemma RenderFirst(x: Stream, p: nat)
    requires p < |x.s| && Phase(x, p) == 0
    ensures Render(x, p, p + 1) == [TS_SYNC_BYTE] + [x.s[p]]
  {
    assert Render(x, p, p) == [];
  }

  /** A user packet, or the beginning of one. */
  lemma RenderUser(x: Stream, from: nat, until: nat)
    requires from < until <= |x.s| && Phase(x, from) == 0 && until - from <= 187
    ensures Render(x, from, until) == [TS_SYNC_BYTE] + x.s[from..until]
  {
    hide Phase, Render;
    RenderFirst(x, from);
    if from + 1 < until {
      PhaseInside(x, from, 1);
      RenderInside(x, from + 1, until);
      RenderJoin(x, from, from + 1, until);
      assert x.s[from..until] == [x.s[from]] + x.s[from + 1..until];
    }
  }

  /** A whole stride: the user packet with its sync byte, without the null-packet count. */
  lemma RenderStride(x: Stream, from: nat, until: nat)
    requires Phase(x, from) == 0 && until <= |x.s| && until == from + Stride(x)
    ensures Render(x, from, until) == [TS_SYNC_BYTE] + x.s[from..from + 187]
  {
    hide Phase;
    RenderUser(x, from, from + 187);
    if x.dnp {
      PhaseInside(x, from, 187);
      assert Emit(x, from + 187) == [];
    }
  }

  /** The rest of a user packet up to the next start, without the null-packet count. */
  lemma RenderTail(x: Stream, from: nat)
    requires from + ToStart(x, from) <= |x.s| && ToStart(x, from) > 0
    ensures Render(x, from, from + ToStart(x, from)) == x.s[from..from + ToStart(x, from) - Count(x)]
  {
    hide Phase;
    var d := ToStart(x, from);
    if x.dnp {
      if d > 1 {
        RenderInside(x, from, from + d - 1);
      } else {
        assert Render(x, from, from) == [];
      }
      PhaseInside(x, from, d - 1);
      assert Emit(x, from + d - 1) == [];
    } else {
      RenderInside(x, from, from + d);
    }
  }

  /** From one start to another, whole packets of 188 bytes are written. */
  lemma {:induction false} RenderAligned(x: Stream, from: nat, until: nat)
    requires from <= until <= |x.s| && Phase(x, from) == 0 && Phase(x, until) == 0
    ensures |Render(x, from, until)| % TS_PACKET_SIZE == 0
    decreases until
  {
    hide Phase, Render;
    if from == until {
      RenderNothing(x, from);
    } else {
      PhaseBefore(x, until);
      var mid := until - Stride(x);
      if mid < from {
        PhaseAfter(x, mid);
        assert false;
      }
      RenderAligned(x, from, mid);
      RenderJoin(x, from, mid, until);
      RenderStride(x, mid, until);
      Plus188(|Render(x, from, mid)|);
    }
  }

  lemma RenderNothing(x: Stream, p: nat)
    requires p <= |x.s|
    ensures Render(x, p, p) == []
  {
  }

  // ---------- one frame ----------

  /** The T2-MI packet t carries x.s[from..until] in a frame of the PLP, mapped in high-efficiency mode. */
  predicate IsFrame(t: seq<byte>, x: Stream, plp: byte, from: nat, until: nat)
  {
    && from + 188 <= until <= |x.s|
    && |t| >= 19 + (until - from) && t[0] == 0
    && t[7] == plp < 128
    && (Dnp(t) == 1 <==> x.dnp)
    && Dfl(t) == until - from
    && Syncd(t) == ToStart(x, from)
    && t[19..19 + (until - from)] == x.s[from..until]
  }

  /** The copying loop writes the frame from the user packet start at p on. */
  lemma {:induction false} CopiesUsers(t2: Buffer, x: Stream, from: nat, until: nat, p: nat, out: seq<byte>, size: nat)
    requires from <= p <= until <= |x.s| && 187 <= until - from <= 8191
    requires t2[19..19 + (until - from)] == x.s[from..until]
    requires Phase(x, p) == 0 && |out| + |Render(x, p, until)| <= size
    ensures CopyUsers(t2, 19 + (p - from), 19 + (until - from), Count(x), out, size) == out + Render(x, p, until)
    decreases until - p
  {
    hide Phase, Render;
    if p + 187 < until {
      CopiesOne(t2, x, from, until, p);
      var user := t2[19 + (p - from)..19 + (p - from) + 187];
      CopiesUsers(t2, x, from, until, p + Stride(x), out + [TS_SYNC_BYTE] + user, size);
      assert out + [TS_SYNC_BYTE] + user + Render(x, p + Stride(x), until) == out + Render(x, p, until);
    } else if p < until {
      SameSlice(t2, x, from, until, p, until);
      RenderUser(x, p, until);
    } else {
      assert Render(x, p, until) == [] by { RenderNone(x, p); }
    }
  }

  lemma CopiesOne(t2: Buffer, x: Stream, from: nat, until: nat, p: nat)
    requires from <= p && p + 187 < until <= |x.s| && until - from <= 8191
    requires t2[19..19 + (until - from)] == x.s[from..until] && Phase(x, p) == 0
    ensures Phase(x, p + Stride(x)) == 0
    ensures Render(x, p, until)
         == [TS_SYNC_BYTE] + t2[19 + (p - from)..19 + (p - from) + 187] + Render(x, p + Stride(x), until)
  {
    hide Phase, Render;
    SameSlice(t2, x, from, until, p, p + 187);
    PhaseAfter(x, p);
    RenderStride(x, p, p + Stride(x));
    RenderJoin(x, p, p + Stride(x), until);
  }

  lemma RenderNone(x: Stream, p: nat)
    requires p <= |x.s|
    ensures Render(x, p, p) == []
  {
  }

  lemma SameSlice(t2: Buffer, x: Stream, from: nat, until: nat, a: nat, b: nat)
    requires from <= a <= b <= until <= |x.s| && until - from <= 8191
    requires t2[19..19 + (until - from)] == x.s[from..until]
    ensures t2[19 + (a - from)..19 + (b - from)] == x.s[a..b]
  {
    SubSlice(t2, 19, 19 + (until - from), a - from, b - from);
    SubSlice(x.s, from, until, a - from, b - from);
  }

  lemma SubSlice<T>(s: seq<T>, a: nat, b: nat, c: nat, d: nat)
    requires a <= b <= |s| && c <= d <= b - a
    ensures s[a..b][c..d] == s[a + c..a + d]
  {
    forall i | 0 <= i < d - c ensures s[a..b][c..d][i] == s[a + c..a + d][i] {
    }
  }

  /** Where output starts when the first frame processed begins at p. */
  function FirstStart(x: Stream, p: nat): nat { p + ToStart(x, p) }

  lemma FrameHeader(t: seq<byte>, t2: Buffer)
    requires 19 <= |t| <= T2_SIZE && t2[..|t|] == t
    ensures Syncd(t2) == Syncd(t) && Dfl(t2) == Dfl(t) && Dnp(t2) == Dnp(t)
    ensures forall plp :: ForPlp(t2, plp) == ForPlp(t, plp)
  {
    forall i | 0 <= i < 19 ensures t2[i] == t[i] {
      assert t2[i] == t2[..|t|][i];
    }
  }

  lemma TailRendered(t2: Buffer, x: Stream, from: nat, until: nat)
    requires from + 188 <= until <= |x.s| && until - from <= 8191
    requires t2[19..19 + (until - from)] == x.s[from..until]
    requires Syncd(t2) == ToStart(x, from) && Dnp(t2) == Count(x)
    ensures Tail(false, t2) == Render(x, from, FirstStart(x, from))
  {
    hide Phase, Render;
    if ToStart(x, from) > 0 {
      SameSlice(t2, x, from, until, from, from + ToStart(x, from) - Count(x));
      RenderTail(x, from);
    } else {
      RenderNone(x, from);
    }
  }

  /** After the tail the output ends with a whole user packet. */
  lemma TailReached(t2: Buffer, x: Stream, from: nat, until: nat, first: bool, start: nat, out0: seq<byte>)
    requires from + 188 <= until <= |x.s| && until - from <= 8191 && t2[19..19 + (until - from)] == x.s[from..until]
    requires Syncd(t2) == ToStart(x, from) && Dnp(t2) == Count(x)
    requires |out0| % TS_PACKET_SIZE == 0 && Phase(x, start) == 0
    requires if first then start == FirstStart(x, from) else start <= from
    ensures out0 + Render(x, start, from) + Tail(first, t2) == out0 + Render(x, start, FirstStart(x, from))
    ensures |out0 + Render(x, start, FirstStart(x, from))| % TS_PACKET_SIZE == 0
  {
    hide Phase, Render, Syncd, Dnp;
    var mid := FirstStart(x, from);
    if first {
      RenderBackwards(x, start, from);
      RenderNone(x, mid);
      assert Tail(first, t2) == [];
    } else {
      hide Tail;
      TailRendered(t2, x, from, until);
      RenderJoin(x, start, from, mid);
      Regroup(out0, Render(x, start, from), Render(x, from, mid));
    }
    RenderAligned(x, start, mid);
  }

  lemma Regroup<T>(a: seq<T>, b: seq<T>, c: seq<T>)
    ensures a + b + c == a + (b + c)
  {
  }

  /** Processing a frame adds its part of the stream, and never finds the output unaligned. */
  lemma FrameExtracts(t: seq<byte>, t2: Buffer, x: Stream, plp: byte, from: nat, until: nat, first: bool, start: nat,
                      out0: seq<byte>, size: nat)
    requires IsFrame(t, x, plp, from, until) && |t| <= T2_SIZE && t2[..|t|] == t
    requires |out0| % TS_PACKET_SIZE == 0 && Phase(x, start) == 0
    requires if first then start == FirstStart(x, from) else start <= from
    requires |out0| + |Render(x, start, until)| <= size
    ensures var out := out0 + Render(x, start, from);
      && Aligned(out + Tail(first, t2)) == out + Tail(first, t2)
      && WritesInside(first, t2, plp, |out|, size)
      && Extract(first, t2, plp, out, size) == Extracted(out0 + Render(x, start, until), false)
  {
    hide Phase, Render, IsFrame, Tail, CopyUsers, ForPlp, Syncd, Dfl, Dnp, WritesInside;
    FrameData(t, t2, x, plp, from, until);
    var mid := FirstStart(x, from);
    TailReached(t2, x, from, until, first, start, out0);
    AlignedStays(out0 + Render(x, start, from), first, t2, plp, size);
    RenderJoin(x, start, mid, until);
    CopiesUsers(t2, x, from, until, mid, out0 + Render(x, start, mid), size);
    Regroup(out0, Render(x, start, mid), Render(x, mid, until));
  }

  /** Output that is complete after the tail is not taken back. */
  lemma AlignedStays(out: seq<byte>, first: bool, t2: Buffer, plp: byte, size: nat)
    requires |out + Tail(first, t2)| % TS_PACKET_SIZE == 0
    ensures Aligned(out + Tail(first, t2)) == out + Tail(first, t2) && WritesInside(first, t2, plp, |out|, size)
  {
    hide Tail, Syncd, Dfl;
  }

  lemma RenderBackwards(x: Stream, a: nat, b: nat)
    requires b <= a && b <= |x.s|
    ensures Render(x, a, b) == []
  {
  }

  lemma FrameData(t: seq<byte>, t2: Buffer, x: Stream, plp: byte, from: nat, until: nat)
    requires IsFrame(t, x, plp, from, until) && |t| <= T2_SIZE && t2[..|t|] == t
    ensures from + 188 <= until <= |x.s| && until - from <= 8191
    ensures t2[19..19 + (until - from)] == x.s[from..until]
    ensures Syncd(t2) == ToStart(x, from) && Dnp(t2) == Count(x) && Dfl(t2) == until - from && ForPlp(t2, plp)
  {
    hide Phase;
    FrameHeader(t, t2);
    SubSlice(t2, 0, |t|, 19, 19 + (until - from));
  }

  // ---------- T2-MI packets in transport stream packets ----------

  datatype Item = Skipped | Middle(bytes: seq<byte>) | Begin(tail: seq<byte>, head: seq<byte>)

  /** The pointer field, if there is one, points into the packet. */
  predicate WellPointed(v: seq<byte>)
    requires |v| >= 188
  {
    PayloadStart(v).Some? && Starts(v) ==> PayloadStart(v).value + 1 + v[PayloadStart(v).value] as nat < 188
  }

  /** What a packet carries; at most one T2-MI packet starts in it. */
  function ItemOf(v: seq<byte>): Item
    requires |v| >= 188 && WellPointed(v)
  {
    if PayloadStart(v).None? then Skipped
    else
      var s := PayloadStart(v).value;
      if Starts(v) then Begin(v[s + 1..s + 1 + v[s] as nat], v[s + 1 + v[s] as nat..188]) else Middle(v[s..188])
  }

  /** The T2-MI packets that are complete, and the one that is not. */
  datatype Assembly = Assembly(done: seq<seq<byte>>, open: Option<seq<byte>>)

  function Extend(before: Assembly, item: Item): Assembly
  {
    match item
    case Skipped => before
    case Middle(bytes) => before.(open := if before.open.Some? then Some(before.open.value + bytes) else None)
    case Begin(tail, head) =>
      Assembly(if before.open.Some? then before.done + [before.open.value + tail] else before.done, Some(head))
  }

  predicate Wanted(t: seq<byte>, plp: byte)
    requires |t| >= 8
  {
    t[0] == 0 && t[7] == plp < 128
  }

  /** The PLP's frames among ts carry x.s[from..until]; other T2-MI packets may lie between them. */
  predicate Mapped(ts: seq<seq<byte>>, x: Stream, plp: byte, from: nat, until: nat)
  {
    if ts == [] then from == until
    else
      var before, t := ts[..|ts| - 1], ts[|ts| - 1];
      8 <= |t| <= T2_SIZE &&
      if Wanted(t, plp)
      then |t| >= 19 && from + Dfl(t) <= until && IsFrame(t, x, plp, until - Dfl(t), until)
        && Mapped(before, x, plp, from, until - Dfl(t))
      else Mapped(before, x, plp, from, until)
  }
}

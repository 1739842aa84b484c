/** What the T2-MI demultiplexer reads of a transport stream packet, and which packets it passes over. */
module T2miLayout {
  import opened Bytes
  import opened Sections
  import opened Layout
  import opened T2mi
  import opened T2miStream
  import opened T2miRun
  import opened T2miEncode

  // ---------- one packet ----------

  /** The payload of a written packet is found where it is. */
  lemma PayloadFound(f: Fields)
    ensures var v := Packed(f);
      && PayloadStart(v) == (if f.HasPayload() then Some(188 - |f.payload|) else None)
      && v[188 - |f.payload|..] == f.payload && Starts(v) == f.start
  {
    FieldsRead(f);
    WrittenParts(f);
    hide Packed, FixedHeader, AdaptationField;
  }

  /** Byte 3 says that there is no payload, or the adaptation field leaves no room for one. */
  predicate NoPayload(v: View)
  {
    v[3] / 16 % 4 == 2 || (v[3] / 16 % 4 == 3 && v[4] >= 183)
  }

  lemma NothingRead(v: View)
    ensures NoPayload(v) <==> PayloadStart(v).None?
  {
  }

  /** Such a packet changes neither state nor output, at whatever moment it comes. */
  lemma PassedOver(st: State, v: View, plp: byte, out: seq<byte>, size: nat)
    requires NoPayload(v)
    ensures Safe(st, v, plp, |out|, size) && Step(st, v, plp, out, size) == Result(st, out)
  {
    NothingRead(v);
  }

  // ---------- runs ----------

  /** The packets without those that are passed over. */
  function WithPayload(vs: seq<View>): seq<View>
  {
    if vs == [] then []
    else WithPayload(vs[..|vs| - 1]) + if NoPayload(vs[|vs| - 1]) then [] else [vs[|vs| - 1]]
  }

  lemma RunSnoc(vs: seq<View>, v: View, plp: byte, st0: State, out0: seq<byte>, size: nat)
    ensures Run(vs + [v], plp, st0, out0, size)
         == var before := Run(vs, plp, st0, out0, size);
            if before.Some? && Safe(before.value.st, v, plp, |before.value.out|, size)
            then Some(Step(before.value.st, v, plp, before.value.out, size)) else None
  {
    hide Safe, Step;
    assert (vs + [v])[..|vs|] == vs;
  }

  /** A run with packets without payload inserted anywhere is the run without them. */
  lemma {:induction false} RunWithoutThem(vs: seq<View>, plp: byte, st0: State, out0: seq<byte>, size: nat)
    ensures Run(vs, plp, st0, out0, size) == Run(WithPayload(vs), plp, st0, out0, size)
    decreases |vs|
  {
    if vs != [] {
      hide Safe, Step, NoPayload;
      var past, v := vs[..|vs| - 1], vs[|vs| - 1];
      RunWithoutThem(past, plp, st0, out0, size);
      var before := Run(past, plp, st0, out0, size);
      if NoPayload(v) {
        if before.Some? {
          PassedOver(before.value.st, v, plp, before.value.out, size);
        }
        assert WithPayload(past) + [] == WithPayload(past);
      } else {
        RunSnoc(WithPayload(past), v, plp, st0, out0, size);
      }
    }
  }

  /**
   The round trip with packets without payload anywhere: user packets mapped into frames and cut into
   packets come out of the demultiplexer, whatever adaptation fields are sent in between.
   */
  lemma MappedAmidOthersComesBack(vs: seq<View>, x: Stream, plp: byte, bounds: seq<nat>, last: nat, flush: seq<byte>,
    st0: State, out0: seq<byte>, size: nat)
    requires Bounds(x, bounds) && plp < 128 && bounds[|bounds| - 1] == Start(x, last) && FirstUser(x, bounds[0]) <= last
    requires 1 <= |flush| <= 183 && WithPayload(vs) == CutAll(Frames(x, plp, bounds) + [flush])
    requires !st0.active && st0.first && |out0| % TS_PACKET_SIZE == 0
    requires |out0| + TS_PACKET_SIZE * (last - FirstUser(x, bounds[0])) <= size
    ensures Run(vs, plp, st0, out0, size).Some?
    ensures Run(vs, plp, st0, out0, size).value.out
         == out0 + Flatten(UserPackets(x, FirstUser(x, bounds[0]), last))
  {
    hide *;
    RunWithoutThem(vs, plp, st0, out0, size);
    MappedAndCutComesBack(x, plp, bounds, last, flush, st0, out0, size);
  }

  // ---------- frames in which no user packet starts ----------

  /** A frame of the PLP whose sync distance has all bits set: no user packet starts in its data field d. */
  function FrameWithoutStart(plp: byte, d: seq<byte>): seq<byte>
    requires |d| <= 8191
  {
    [0, 0, 0, 0, 0, 0, 0, plp, 0, 0, 0, 0, 0, |d| * 8 / 256, |d| * 8 % 256, 0x47, 255, 255, 0] + d
  }

  /** All of its data field goes out, as the middle of a user packet, if there is room for it. */
  lemma CopiedWithoutStart(first: bool, t2: Buffer, plp: byte, d: seq<byte>, out: seq<byte>, size: nat)
    requires |d| <= 8191 && plp < 128 && FrameWithoutStart(plp, d) <= t2
    ensures Extract(first, t2, plp, out, size) == Extracted(if |out| + |d| > size then out else out + d, first)
  {
    var t := FrameWithoutStart(plp, d);
    assert t2[..|t|] == t;
    assert forall i :: 0 <= i < 19 ==> t2[i] == t[i];
    assert t2[19..19 + |d|] == t2[..|t|][19..] == d;
    assert Dfl(t2) == |d| && Syncd(t2) == MAX_SYNC && ForPlp(t2, plp);
  }

  /** Frames of other PLPs, and those of PLP ids from 128 on, yield nothing. */
  lemma OtherPlp(first: bool, t2: Buffer, plp: byte, out: seq<byte>, size: nat)
    requires t2[7] != plp || plp >= 128
    ensures Extract(first, t2, plp, out, size) == Extracted(out, first)
  {
  }
}

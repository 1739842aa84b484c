/**
 T2-MI demultiplexing: T2-MI packets are gathered from the payloads of one PID, and the user packets
 of one PLP's baseband frames are written out as transport stream packets.
 */
module T2mi {
  import opened Bytes
  import opened Sections

  const T2_SIZE: nat := 188 * 349
  const TS_SYNC_BYTE: byte := 0x47
  const MAX_SYNC: nat := 0x1FFF

  type Buffer = t: seq<byte> | |t| == T2_SIZE witness Repeat(0, T2_SIZE)

  /** The packet being gathered: t2[..pos] when active. */
  datatype State = State(active: bool, first: bool, t2: Buffer, pos: nat)

  /** Where the payload of a transport stream packet starts; None when it is ignored. */
  function PayloadStart(v: seq<byte>): (s: Option<nat>)
    requires |v| >= 188
    ensures s.Some? ==> 4 <= s.value < 188
  {
    if v[3] / 16 % 4 == 3 then if v[4] as int + 1 > 183 then None else Some(4 + v[4] as int + 1)
    else if v[3] / 16 % 4 == 2 then None
    else Some(4)
  }

  function Starts(v: seq<byte>): bool
    requires |v| >= 188
  {
    v[1] / 64 % 2 == 1
  }

  // ---------- the header of a gathered T2-MI packet ----------

  /** The PLP id is compared as a signed char: ids from 128 on never match. */
  predicate ForPlp(t2: seq<byte>, plp: byte)
    requires |t2| >= 19
  {
    t2[7] == plp && plp < 128
  }

  function Syncd(t2: seq<byte>): nat
    requires |t2| >= 19
  {
    (t2[16] as nat * 256 + t2[17] as nat) / 8
  }

  /** The length of the data field in bytes. */
  function Dfl(t2: seq<byte>): nat
    requires |t2| >= 19
  {
    (t2[13] as nat * 256 + t2[14] as nat) / 8
  }

  function Dnp(t2: seq<byte>): (d: nat)
    requires |t2| >= 19
    ensures d <= 1
  {
    t2[9] / 4 % 2
  }

  // ---------- taking user packets out of a frame ----------

  /** upl - 187, in 32-bit unsigned arithmetic. */
  function FullLimit(upl: nat): nat
  {
    if upl >= 187 then upl - 187 else upl + 0x1_0000_0000 - 187
  }

  /** Whole user packets from pos, then the start of one that ends in the next frame. */
  function CopyUsers(t2: Buffer, pos: nat, upl: nat, dnp: nat, out: seq<byte>, size: nat): seq<byte>
    decreases T2_SIZE - pos
  {
    if pos < FullLimit(upl) then
      if pos > T2_SIZE - 187 || |out| + TS_PACKET_SIZE > size then out
      else CopyUsers(t2, pos + 187 + dnp, upl, dnp, out + [TS_SYNC_BYTE] + t2[pos..pos + 187], size)
    else if pos < upl then
      if pos + (upl - pos) + 1 > T2_SIZE || |out| + (upl - pos) + 1 > size then out
      else out + [TS_SYNC_BYTE] + t2[pos..upl]
    else out
  }

  datatype Extracted = Extracted(out: seq<byte>, first: bool)

  /** What lies before the first user packet that starts in the frame. */
  function Tail(first: bool, t2: Buffer): seq<byte>
  {
    if !first && Syncd(t2) > 0 then t2[19..19 + Syncd(t2) - Dnp(t2)] else []
  }

  function Aligned(out: seq<byte>): seq<byte>
  {
    out[..|out| - |out| % TS_PACKET_SIZE]
  }

  function Extract(first: bool, t2: Buffer, plp: byte, out: seq<byte>, size: nat): Extracted
  {
    if !ForPlp(t2, plp) then Extracted(out, first)
    else if Syncd(t2) == MAX_SYNC then
      Extracted(if |out| + Dfl(t2) > size then out else out + t2[19..19 + Dfl(t2)], first)
    else if |out| + |Tail(first, t2)| > size then Extracted(out, first)
    else
      Extracted(CopyUsers(t2, 19 + Syncd(t2), Dfl(t2) + 19, Dnp(t2), Aligned(out + Tail(first, t2)), size), false)
  }

  // ---------- where the output is written ----------

  /**
   Dropping an incomplete packet takes back more bytes than this call has written.  The count of them
   is unsigned, so from then on a write goes far behind the output buffer.
   */
  predicate StepsBack(at: nat, tail: nat)
  {
    (at + tail) % TS_PACKET_SIZE > tail
  }

  /** Some of the frame's user packets from pos on are written when the output has reached at. */
  predicate Writes(pos: nat, upl: nat, at: nat, size: nat)
  {
    if pos < FullLimit(upl) then pos + 187 <= T2_SIZE && at + TS_PACKET_SIZE <= size
    else pos < upl && upl + 1 <= T2_SIZE && at + (upl - pos) + 1 <= size
  }

  /** Processing the frame writes into the output buffer only. */
  predicate WritesInside(first: bool, t2: Buffer, plp: byte, at: nat, size: nat)
  {
    var tail := |Tail(first, t2)|;
    ForPlp(t2, plp) && Syncd(t2) != MAX_SYNC && at + tail <= size && StepsBack(at, tail) ==>
      !Writes(19 + Syncd(t2), Dfl(t2) + 19, at + tail - (at + tail) % TS_PACKET_SIZE, size)
  }

  // ---------- one transport stream packet ----------

  /** The accesses that the code makes without a check of its own, when the output has reached at. */
  predicate Safe(st: State, v: seq<byte>, plp: byte, at: nat, size: nat)
    requires |v| >= 188
  {
    PayloadStart(v).Some? ==>
      var s := PayloadStart(v).value;
      if Starts(v) then
        var offset := 1 + v[s] as nat;
        (st.active && offset >= 184)
        || (s + offset < |v| && (st.active ==> ClosesSafely(st, v[s + 1..s + offset], plp, at, size)))
      else st.active ==> st.pos + 188 - s <= T2_SIZE
  }

  predicate ClosesSafely(st: State, tail: seq<byte>, plp: byte, at: nat, size: nat)
  {
    st.pos + |tail| <= T2_SIZE && WritesInside(st.first, Put(st.t2, st.pos, tail), plp, at, size)
  }

  function Put(t2: Buffer, pos: nat, bytes: seq<byte>): Buffer
    requires pos + |bytes| <= T2_SIZE
  {
    t2[..pos] + bytes + t2[pos + |bytes|..]
  }

  datatype Result = Result(st: State, out: seq<byte>)

  /** Close the packet being gathered with the bytes before the pointer. */
  function Close(st: State, tail: seq<byte>, plp: byte, out: seq<byte>, size: nat): Result
    requires st.active ==> st.pos + |tail| <= T2_SIZE
  {
    if !st.active then Result(st, out)
    else
      var e := Extract(st.first, Put(st.t2, st.pos, tail), plp, out, size);
      Result(State(false, e.first, Repeat(0, T2_SIZE), st.pos), e.out)
  }

  /** Begin a new packet if it is a baseband frame: type 0. */
  function Open(st: State, head: seq<byte>, packetType: byte): State
    requires |head| <= 188
  {
    if packetType == 0 && head != [] then State(true, st.first, Put(st.t2, 0, head), |head|) else st
  }

  function Step(st: State, v: seq<byte>, plp: byte, out: seq<byte>, size: nat): Result
    requires |v| >= 188 && Safe(st, v, plp, |out|, size)
  {
    if PayloadStart(v).None? then Result(st, out)
    else
      var s := PayloadStart(v).value;
      if Starts(v) then
        var offset := 1 + v[s] as nat;
        if st.active && offset >= 184 then Result(st, out)
        else
          var closed := Close(st, v[s + 1..s + offset], plp, out, size);
          Result(Open(closed.st, v[Min(s + offset, 188)..188], v[s + offset]), closed.out)
      else if st.active then Result(st.(t2 := Put(st.t2, st.pos, v[s..188]), pos := st.pos + 188 - s), out)
      else Result(st, out)
  }
}

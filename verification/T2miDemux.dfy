/** processt2: one call for each transport stream packet, over fixed buffers. */
module T2miDemux {
  import opened Bytes
  import opened Memory
  import opened Sections
  import opened T2mi

  // ---------- unsigned int ----------

  const MODULUS: nat := 0x1_0000_0000

  /** The largest output buffer, far below the point where positions in it would wrap around. */
  const MAX_OUTPUT: nat := 0x4000_0000

  function Add(a: nat, b: nat): nat { if a + b >= MODULUS then a + b - MODULUS else a + b }

  function Subtract(a: nat, b: nat): nat
    requires b <= MODULUS
  {
    if a >= b then a - b else a + MODULUS - b
  }

  /** The int with the same bits. */
  function Signed(n: nat): int { if n >= 0x8000_0000 then n - MODULUS else n }

  /** The output has reached a place in the buffer, n bytes from where the call began; before that if n has wrapped. */
  predicate Counts(size: nat, offset: nat, n: nat)
  {
    offset <= size <= MAX_OUTPUT && n < MODULUS && 0 <= offset + Signed(n) <= size && -188 < Signed(n)
  }

  function Reached(size: nat, offset: nat, n: nat): (at: nat)
    requires Counts(size, offset, n)
    ensures at <= size
  {
    offset + Signed(n)
  }

  lemma AddReached(size: nat, offset: nat, n: nat, k: nat)
    requires Counts(size, offset, n) && k <= 0x1_0000
    ensures Add(Add(offset, n), k) == Reached(size, offset, n) + k
    ensures Add(offset, n) == Reached(size, offset, n)
    ensures Signed(n) >= 0 && Reached(size, offset, n) + k <= size ==>
      Counts(size, offset, Add(n, k)) && Add(n, k) == n + k && Reached(size, offset, Add(n, k)) == offset + n + k
  {
  }

  /** Dropping the incomplete packet: the count wraps exactly when it steps back. */
  lemma DropReached(size: nat, offset: nat, tail: nat)
    requires offset + tail <= size <= MAX_OUTPUT
    ensures var r := (offset + tail) % TS_PACKET_SIZE;
      && r < 188 && r <= offset + tail
      && Counts(size, offset, Subtract(tail, r))
      && Reached(size, offset, Subtract(tail, r)) == offset + tail - r
      && (Signed(Subtract(tail, r)) < 0 <==> StepsBack(offset, tail))
  {
  }

  class Demultiplexer {
    const t2packet: array<byte>
    var active: bool
    var first: bool
    var pos: nat

    ghost predicate Valid()
      reads this
    {
      t2packet.Length == T2_SIZE
    }

    ghost function Abs(): State
      requires Valid()
      reads this, t2packet
    {
      State(active, first, t2packet[..], pos)
    }

    constructor ()
      ensures Valid() && fresh(t2packet) && Abs() == State(false, true, Repeat(0, T2_SIZE), 0)
    {
      t2packet := new byte[T2_SIZE](_ => 0);
      active, first, pos := false, true, 0;
      new;
      assert t2packet[..] == Repeat(0, T2_SIZE);
    }

    /** Write a sync byte and n bytes of the T2-MI packet. */
    method WriteUser(output: array<byte>, offset: nat, count: nat, from: nat, n: nat, ghost t2: Buffer)
      returns (outputBytes: nat)
      requires Valid() && output != t2packet && from + n <= T2_SIZE && t2 == t2packet[..]
      requires Counts(output.Length, offset, count) && Signed(count) >= 0 && offset + count + 1 + n <= output.Length
      modifies output
      ensures outputBytes == count + 1 + n && Counts(output.Length, offset, outputBytes)
      ensures output[..offset + outputBytes]
           == old(output[..offset + count]) + [TS_SYNC_BYTE] + t2[from..from + n]
    {
      outputBytes := count;
      output[offset + outputBytes] := TS_SYNC_BYTE;
      outputBytes := Add(outputBytes, 1);
      assert output[..offset + outputBytes] == old(output[..offset + count]) + [TS_SYNC_BYTE];
      Memcpy(output, offset + outputBytes, t2packet, from, n);
      outputBytes := Add(outputBytes, n);
      assert t2packet[from..from + n] == t2[from..from + n];
    }

    /** The user packets from position from on; a count below zero is only allowed when none is written. */
    method CopyUserPackets(output: array<byte>, offset: nat, count: nat, from: nat, upl: nat, dnp: nat,
      ghost t2: Buffer) returns (outputBytes: nat)
      requires Valid() && output != t2packet && t2 == t2packet[..] && upl <= 0x8000
      requires Counts(output.Length, offset, count)
      requires Signed(count) < 0 ==> !Writes(from, upl, Reached(output.Length, offset, count), output.Length)
      modifies output
      ensures Counts(output.Length, offset, outputBytes)
      ensures output[..Reached(output.Length, offset, outputBytes)]
           == CopyUsers(t2, from, upl, dnp, old(output[..Reached(output.Length, offset, count)]), output.Length)
    {
      hide Counts, Reached, CopyUsers, Writes, FullLimit, Add, Signed;
      outputBytes := count;
      var p := from;
      ghost var size, start := output.Length, output[..Reached(output.Length, offset, count)];
      while p < FullLimit(upl)
        invariant Counts(size, offset, outputBytes)
        invariant Signed(outputBytes) < 0 ==> !Writes(p, upl, Reached(size, offset, outputBytes), size)
        invariant CopyUsers(t2, p, upl, dnp, output[..Reached(size, offset, outputBytes)], size)
               == CopyUsers(t2, from, upl, dnp, start, size)
        decreases T2_SIZE - p
      {
        CopyStep(t2, p, upl, dnp, output[..Reached(size, offset, outputBytes)], size);
        AddReached(size, offset, outputBytes, TS_PACKET_SIZE);
        if p > T2_SIZE - 187 || Add(Add(offset, outputBytes), TS_PACKET_SIZE) > output.Length {
          return;
        }
        NotWrapped(size, offset, outputBytes);
        outputBytes := WriteUser(output, offset, outputBytes, p, 187, t2);
        NotWrapped(size, offset, outputBytes);
        p := p + 187 + dnp;
      }
      CopyEnd(t2, p, upl, dnp, output[..Reached(size, offset, outputBytes)], size);
      if p < upl {
        var partSize := upl - p;
        AddReached(size, offset, outputBytes, partSize + 1);
        if p + partSize + 1 > T2_SIZE || Add(Add(offset, outputBytes), partSize + 1) > output.Length {
          return;
        }
        NotWrapped(size, offset, outputBytes);
        outputBytes := WriteUser(output, offset, outputBytes, p, partSize, t2);
        NotWrapped(size, offset, outputBytes);
      }
    }

    /** The end of the user packet that began in the frame before; not done if there is no room. */
    method CopyTail(output: array<byte>, offset: nat, syncd: nat, dnp: nat, ghost t2: Buffer)
      returns (outputBytes: nat, done: bool)
      requires Valid() && output != t2packet && offset <= output.Length <= MAX_OUTPUT && t2 == t2packet[..]
      requires syncd == Syncd(t2) && dnp == Dnp(t2)
      modifies output
      ensures offset + outputBytes <= output.Length && done == (offset + |Tail(first, t2)| <= output.Length)
      ensures outputBytes == if done then |Tail(first, t2)| else 0
      ensures output[..offset + outputBytes]
           == if done then old(output[..offset]) + Tail(first, t2) else old(output[..offset])
    {
      outputBytes, done := 0, true;
      if !first && syncd > 0 {
        var syncdSize := syncd - dnp;
        if Add(Add(offset, outputBytes), syncdSize) > output.Length {
          return 0, false;
        }
        Memcpy(output, offset + outputBytes, t2packet, 19, syncdSize);
        outputBytes := Add(outputBytes, syncdSize);
      }
    }

    method ExtractFrame(output: array<byte>, offset: nat, syncd: nat, upl: nat, dnp: nat, plp: byte, ghost t2: Buffer)
      returns (outputBytes: nat)
      requires Valid() && output != t2packet && offset <= output.Length <= MAX_OUTPUT && t2 == t2packet[..]
      requires syncd == Syncd(t2) != MAX_SYNC && upl == Dfl(t2) + 19 && dnp == Dnp(t2) && ForPlp(t2, plp)
      requires WritesInside(first, t2, plp, offset, output.Length) && upl <= 0x8000
      modifies output, this`first
      ensures Counts(output.Length, offset, outputBytes)
      ensures Extracted(output[..Reached(output.Length, offset, outputBytes)], first)
           == Extract(old(first), t2, plp, old(output[..offset]), output.Length)
    {
      ghost var before, size, tail := output[..offset], output.Length, Tail(first, t2);
      ExtractIs(first, t2, plp, before, size);
      hide *;
      var done;
      outputBytes, done := CopyTail(output, offset, syncd, dnp, t2);
      assert output[..offset + outputBytes] == if done then before + tail else before;
      CountsUp(size, offset, outputBytes);
      if done {
        first := false;
        outputBytes := CopyAligned(output, offset, outputBytes, 19 + syncd, upl, dnp, t2);
      }
    }

    /** The user packets, from the last complete one on. */
    method CopyAligned(output: array<byte>, offset: nat, tail: nat, from: nat, upl: nat, dnp: nat, ghost t2: Buffer)
      returns (outputBytes: nat)
      requires Valid() && output != t2packet && t2 == t2packet[..] && upl <= 0x8000
      requires offset + tail <= output.Length <= MAX_OUTPUT
      requires StepsBack(offset, tail) ==>
        !Writes(from, upl, offset + tail - (offset + tail) % TS_PACKET_SIZE, output.Length)
      modifies output
      ensures Counts(output.Length, offset, outputBytes)
      ensures output[..Reached(output.Length, offset, outputBytes)]
           == CopyUsers(t2, from, upl, dnp, Aligned(old(output[..offset + tail])), output.Length)
    {
      hide *;
      outputBytes := DropIncomplete(output, offset, tail);
      outputBytes := CopyUserPackets(output, offset, outputBytes, from, upl, dnp, t2);
    }

    /** Take back what does not fill a packet. */
    method DropIncomplete(output: array<byte>, offset: nat, tail: nat) returns (outputBytes: nat)
      requires offset + tail <= output.Length <= MAX_OUTPUT
      ensures Counts(output.Length, offset, outputBytes)
      ensures output[..Reached(output.Length, offset, outputBytes)] == Aligned(output[..offset + tail])
      ensures Reached(output.Length, offset, outputBytes) == offset + tail - (offset + tail) % TS_PACKET_SIZE
      ensures Signed(outputBytes) < 0 <==> StepsBack(offset, tail)
    {
      DropReached(output.Length, offset, tail);
      outputBytes := tail;
      var outputPart := Add(offset, outputBytes) % TS_PACKET_SIZE;
      if outputPart > 0 {
        outputBytes := Subtract(outputBytes, outputPart);
      }
    }

    /** The gathered T2-MI packet, if it is for the PLP. */
    method ExtractPackets(output: array<byte>, offset: nat, plp: byte, ghost t2: Buffer) returns (outputBytes: nat)
      requires Valid() && output != t2packet && offset <= output.Length <= MAX_OUTPUT && t2 == t2packet[..]
      requires WritesInside(first, t2, plp, offset, output.Length)
      modifies output, this`first
      ensures Counts(output.Length, offset, outputBytes)
      ensures Extracted(output[..Reached(output.Length, offset, outputBytes)], first)
           == Extract(old(first), t2, plp, old(output[..offset]), output.Length)
    {
      ghost var before, size := output[..offset], output.Length;
      WhenForPlp(first, t2, plp, before, size);
      hide *;
      outputBytes := 0;
      CountsUp(size, offset, 0);
      if t2packet[7] == plp && plp < 128 {
        var syncd, upl, dnp := ReadHeader(t2);
        if syncd == 0x1FFF {
          outputBytes := CopyWhole(output, offset, upl - 19, t2);
        } else {
          outputBytes := ExtractFrame(output, offset, syncd, upl, dnp, plp, t2);
        }
      }
    }

    /** The fields of the frame's headers that matter. */
    method ReadHeader(ghost t2: Buffer) returns (syncd: nat, upl: nat, dnp: nat)
      requires Valid() && t2 == t2packet[..]
      ensures syncd == Syncd(t2) && upl == Dfl(t2) + 19 && dnp == Dnp(t2) && upl <= 0x8000
    {
      syncd := (t2packet[16] as nat * 256 + t2packet[17] as nat) / 8;
      upl := (t2packet[13] as nat * 256 + t2packet[14] as nat) / 8 + 19;
      dnp := if t2packet[9] / 4 % 2 == 1 then 1 else 0;
    }

    /** A data field in which no user packet starts, if there is room for it. */
    method CopyWhole(output: array<byte>, offset: nat, maxsync: nat, ghost t2: Buffer) returns (outputBytes: nat)
      requires Valid() && output != t2packet && offset <= output.Length <= MAX_OUTPUT && t2 == t2packet[..]
      requires maxsync <= 8191
      modifies output
      ensures offset + outputBytes <= output.Length && Counts(output.Length, offset, outputBytes)
      ensures Reached(output.Length, offset, outputBytes) == offset + outputBytes
      ensures output[..offset + outputBytes]
           == old(output[..offset]) + if offset + maxsync > output.Length then [] else t2[19..19 + maxsync]
    {
      outputBytes := 0;
      if Add(Add(offset, outputBytes), maxsync) <= output.Length {
        Memcpy(output, offset + outputBytes, t2packet, 19, maxsync);
        outputBytes := Add(outputBytes, maxsync);
      }
      CountsUp(output.Length, offset, outputBytes);
    }

    // ---------- gathering ----------

    /** Add bytes of the input to the T2-MI packet. */
    method Gather(input: array<byte>, from: nat, n: nat, at: nat, ghost t2: Buffer)
      requires Valid() && input != t2packet && from + n <= input.Length && at + n <= T2_SIZE && t2 == t2packet[..]
      modifies t2packet
      ensures t2packet[..] == Put(t2, at, input[from..from + n])
    {
      Memcpy(t2packet, at, input, from, n);
      assert t2packet[..] == t2packet[..at + n] + t2packet[at + n..];
    }

    /** Process what was gathered, and forget it. */
    method CloseFrame(input: array<byte>, from: nat, n: nat, output: array<byte>, offset: nat, plp: byte)
      returns (outputBytes: nat)
      requires Valid() && active && input != t2packet && output != t2packet && output != input
      requires from + n <= input.Length && offset <= output.Length <= MAX_OUTPUT
      requires ClosesSafely(Abs(), input[from..from + n], plp, offset, output.Length)
      modifies this`active, this`first, t2packet, output
      ensures Counts(output.Length, offset, outputBytes)
      ensures Result(Abs(), output[..Reached(output.Length, offset, outputBytes)])
           == Close(old(Abs()), input[from..from + n], plp, old(output[..offset]), output.Length)
    {
      hide Extract, Put, WritesInside, Counts, Reached;
      ghost var t2: Buffer := t2packet[..];
      ghost var tail := input[from..from + n];
      Gather(input, from, n, pos, t2);
      ghost var whole: Buffer := t2packet[..];
      ghost var before, was := output[..offset], first;
      assert whole == Put(t2, pos, tail);
      outputBytes := ExtractPackets(output, offset, plp, whole);
      ghost var after := output[..Reached(output.Length, offset, outputBytes)];
      assert Extracted(after, first) == Extract(was, whole, plp, before, output.Length);
      active := false;
      forall i | 0 <= i < T2_SIZE {
        t2packet[i] := 0;
      }
      assert t2packet[..] == Repeat(0, T2_SIZE);
      assert input[from..from + n] == tail;
      assert output[..Reached(output.Length, offset, outputBytes)] == after;
    }

    /** Begin gathering the packet at buf, n bytes of which are there, if it is a baseband frame. */
    method OpenFrame(input: array<byte>, from: nat, n: nat)
      requires Valid() && input != t2packet && from + n <= input.Length && from < input.Length && n <= 188
      modifies this`active, this`pos, t2packet
      ensures Abs() == Open(old(Abs()), input[from..from + n], input[from])
    {
      hide Put;
      if input[from] == 0 && n > 0 {
        Gather(input, from, n, 0, t2packet[..]);
        pos := n;
        active := true;
      }
    }

    /** A packet with a pointer field, s bytes into the packet: close what was gathered, open the next. */
    method ProcessStart(input: array<byte>, base: nat, s: nat, output: array<byte>, offset: nat, plp: byte,
      ghost v: seq<byte>) returns (outputBytes: nat)
      requires Valid() && input != t2packet && output != t2packet && output != input
      requires base + TS_PACKET_SIZE <= input.Length && v == input[base..] && offset <= output.Length <= MAX_OUTPUT
      requires PayloadStart(v) == Some(s) && Starts(v) && Safe(Abs(), v, plp, offset, output.Length)
      modifies this`active, this`first, this`pos, t2packet, output
      ensures Counts(output.Length, offset, outputBytes)
      ensures Result(Abs(), output[..Reached(output.Length, offset, outputBytes)])
           == Step(old(Abs()), v, plp, old(output[..offset]), output.Length)
    {
      hide PayloadStart, Close, Open, Starts, WritesInside, Counts, Reached;
      var pointer := 1 + input[base + s] as nat;
      assert v[s] == input[base + s];
      var from := base + s + pointer;
      var n := if s + pointer < 188 then 188 - (s + pointer) else 0;
      ghost var st, before := Abs(), output[..offset];
      outputBytes := 0;
      NothingWritten(output.Length, offset);
      if active {
        if pointer >= 184 {
          return;
        }
        SubDrop(v, base, input[..], s + 1, s + pointer);
        outputBytes := CloseFrame(input, base + s + 1, pointer - 1, output, offset, plp);
      } else {
        CloseIdle(st, v[s + 1..s + pointer], plp, before, output.Length);
      }
      ghost var at := Reached(output.Length, offset, outputBytes);
      assert Result(Abs(), output[..at]) == Close(st, v[s + 1..s + pointer], plp, before, output.Length);
      SubDrop(v, base, input[..], Min(s + pointer, 188), 188);
      assert input[from..from + n] == v[Min(s + pointer, 188)..188] && input[from] == v[s + pointer];
      OpenFrame(input, from, n);
    }

    /** One packet of the T2-MI PID at input[base..]; what it yields goes to output from outputOffset on. */
    method Processt2(input: array<byte>, base: nat, output: array<byte>, outputOffset: nat, plpId: byte)
      returns (outputBytes: int)
      requires Valid() && input != t2packet && output != t2packet && output != input
      requires base + TS_PACKET_SIZE <= input.Length && outputOffset <= output.Length <= MAX_OUTPUT
      requires Safe(Abs(), input[base..], plpId, outputOffset, output.Length)
      modifies this`active, this`first, this`pos, t2packet, output
      ensures 0 <= outputOffset + outputBytes <= output.Length
      ensures Result(Abs(), output[..outputOffset + outputBytes])
           == Step(old(Abs()), old(input[base..]), plpId, old(output[..outputOffset]), output.Length)
    {
      hide Close, Open, Put, ClosesSafely;
      ghost var v := input[base..];
      var payloadStartOffset := 0;
      outputBytes := 0;
      var afc := input[base + 3] / 16 % 4;
      if afc == 3 {
        payloadStartOffset := input[base + 4] as nat + 1;
        if payloadStartOffset > 183 {
          return;
        }
      } else if afc == 2 {
        return;
      }
      var s := 4 + payloadStartOffset;
      assert PayloadStart(v) == Some(s);
      if input[base + 1] / 64 % 2 == 1 {
        var count := ProcessStart(input, base, s, output, outputOffset, plpId, v);
        outputBytes := Signed(count);
      } else if active {
        var len := TS_PACKET_SIZE - s;
        SubDrop(v, base, input[..], s, 188);
        Gather(input, base + s, len, pos, t2packet[..]);
        pos := pos + len;
      }
    }
  }

  /** A count that has not wrapped is the distance from the offset. */
  lemma NotWrapped(size: nat, offset: nat, n: nat)
    ensures Counts(size, offset, n) && Signed(n) >= 0 ==> Reached(size, offset, n) == offset + n
    ensures Counts(size, offset, n) && n <= MAX_OUTPUT ==> Signed(n) >= 0
  {
  }

  lemma NothingWritten(size: nat, offset: nat)
    requires offset <= size <= MAX_OUTPUT
    ensures Counts(size, offset, 0) && Reached(size, offset, 0) == offset
  {
  }

  lemma CountsUp(size: nat, offset: nat, n: nat)
    requires offset + n <= size <= MAX_OUTPUT
    ensures Counts(size, offset, n) && Reached(size, offset, n) == offset + n
  {
  }

  /** What is done with a frame: nothing if it is not for the PLP, and its data field copied if none starts in it. */
  lemma WhenForPlp(first: bool, t2: Buffer, plp: byte, out: seq<byte>, size: nat)
    ensures TS_PACKET_SIZE == 188 && MAX_SYNC == 0x1FFF && Dfl(t2) <= 8191
    ensures ForPlp(t2, plp) <==> t2[7] == plp && plp < 128
    ensures !ForPlp(t2, plp) ==> Extract(first, t2, plp, out, size) == Extracted(out, first)
    ensures ForPlp(t2, plp) && Syncd(t2) == MAX_SYNC ==>
      Extract(first, t2, plp, out, size)
      == Extracted(out + if |out| + Dfl(t2) > size then [] else t2[19..19 + Dfl(t2)], first)
  {
    hide CopyUsers, Tail, Syncd, Aligned, Dnp;
    assert out + [] == out;
  }

  /** What a frame adds when it is not the special one, and where that is written. */
  lemma ExtractIs(first: bool, t2: Buffer, plp: byte, out: seq<byte>, size: nat)
    requires ForPlp(t2, plp) && Syncd(t2) != MAX_SYNC && WritesInside(first, t2, plp, |out|, size)
    ensures var tail := Tail(first, t2);
      if |out| + |tail| > size then Extract(first, t2, plp, out, size) == Extracted(out, first)
      else
        && Extract(first, t2, plp, out, size)
           == Extracted(CopyUsers(t2, 19 + Syncd(t2), Dfl(t2) + 19, Dnp(t2), Aligned(out + tail), size), false)
        && (StepsBack(|out|, |tail|) ==>
              !Writes(19 + Syncd(t2), Dfl(t2) + 19, |out| + |tail| - (|out| + |tail|) % TS_PACKET_SIZE, size))
  {
    hide ForPlp, Syncd, Dfl, Dnp, CopyUsers, Writes, StepsBack;
  }

  /** One turn of the copying loop. */
  lemma CopyStep(t2: Buffer, p: nat, upl: nat, dnp: nat, out: seq<byte>, size: nat)
    requires p < FullLimit(upl)
    ensures Writes(p, upl, |out|, size) <==> p + 187 <= T2_SIZE && |out| + TS_PACKET_SIZE <= size
    ensures CopyUsers(t2, p, upl, dnp, out, size)
         == if !Writes(p, upl, |out|, size) then out
            else CopyUsers(t2, p + 187 + dnp, upl, dnp, out + [TS_SYNC_BYTE] + t2[p..p + 187], size)
  {
  }

  /** The start of a user packet after it. */
  lemma CopyEnd(t2: Buffer, p: nat, upl: nat, dnp: nat, out: seq<byte>, size: nat)
    requires p >= FullLimit(upl)
    ensures Writes(p, upl, |out|, size) <==> p < upl && upl + 1 <= T2_SIZE && |out| + (upl - p) + 1 <= size
    ensures CopyUsers(t2, p, upl, dnp, out, size)
         == if !Writes(p, upl, |out|, size) then out else out + [TS_SYNC_BYTE] + t2[p..upl]
  {
  }

  lemma CloseIdle(st: State, tail: seq<byte>, plp: byte, out: seq<byte>, size: nat)
    requires !st.active
    ensures Close(st, tail, plp, out, size) == Result(st, out)
  {
  }

  lemma SubDrop(v: seq<byte>, base: nat, all: seq<byte>, a: nat, b: nat)
    requires base <= |all| && v == all[base..] && a <= b <= |v|
    ensures v[a..b] == all[base + a..base + b]
  {
  }
}

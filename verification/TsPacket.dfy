/**
 The program's reassembly buffer: fixed arrays, a four-state partial section and a packed
 queue of finished sections.  Every method is proved against the functions of Demux.
 */
module TsPacket {
  import opened Bytes
  import opened Crc32
  import opened CrcTable
  import opened Sections
  import opened Demux
  import opened Memory

  datatype PacketStatus = EMPTY | PARTIAL_HEADER | STARTED | VALID
  datatype StartFlag = NO_START | START_TS | START_SECTION

  /** Is the raw section at the start of data intact? */
  method TsCheckRawCrc32(data: array<byte>) returns (ok: bool)
    requires data.Length >= 3 && data.Length >= FullLength(data[..])
    ensures ok == Accepts(data[..FullLength(data[..])])
  {
    if data[0] == STUFFING_TABLE {
      return true;
    }
    var len := data[1] as int % 16 * 256 + data[2] as int + BYTES_BFR_SEC_LEN;
    var crc32: bv32 := 0xffffffff;
    AllOnesWord();
    hide Crc, WordBits, TableStep;
    var i := 0;
    while i < len
      invariant 0 <= i <= len
      invariant WordBits(crc32) == Crc(data[..][..i])
    {
      NextByteFed(data[..], i, crc32);
      crc32 := TableStep(crc32, data[i]);
      i := i + 1;
    }
    ZeroWord(crc32);
    ok := crc32 == 0;
  }

  /** The first n elements become those found at from (memmove to the start of the buffer). */
  method MoveDown<T>(a: array<T>, from: nat, n: nat)
    requires from + n <= a.Length
    modifies a
    ensures a[..n] == old(a[from..from + n])
  {
    forall i | 0 <= i < n {
      a[i] := a[from + i];
    }
  }

  lemma SubPrefix<T>(all: seq<T>, at: nat, n: nat, k: nat)
    requires at + n <= |all| && k <= n
    ensures all[at..at + k] == all[at..at + n][..k]
  {
  }

  lemma DropDrop<T>(all: seq<T>, at: nat, n: nat, k: nat)
    requires at + n <= |all| && k <= n
    ensures all[at + k..at + n] == all[at..at + n][k..]
    ensures at + k + (n - k) == at + n
  {
  }

  lemma FlattenHead(queue: seq<seq<byte>>, packed: seq<byte>)
    requires queue != [] && packed == Flatten(queue)
    ensures |packed| >= |queue[0]|
    ensures packed[..|queue[0]|] == queue[0] && packed[|queue[0]|..] == Flatten(queue[1..])
  {
  }

  lemma TruncatedLength(s: seq<byte>, n: nat)
    requires 3 <= n <= |s|
    ensures FullLength(s[..n]) == FullLength(s)
  {
  }

  class Assembler {
    // what the caller may read
    const dataFull: array<byte>
    var lenFull: nat
    // the packed queue
    var fullNumber: nat
    const fullLengths: array<nat>
    var fullBufferLen: nat
    const bufferFull: array<byte>
    // the section being collected
    const dataPartial: array<byte>
    var lenPartial: nat
    var expectedLenPartial: nat
    var statusPartial: PacketStatus
    var pid: nat
    var cc: nat

    ghost var queue: seq<seq<byte>>

    ghost predicate Shape()
    {
      && dataFull.Length == MAX_TS_SIZE && dataPartial.Length == MAX_TS_SIZE
      && bufferFull.Length == FULL_BUFFER_SIZE && fullLengths.Length == MAX_FULL_PACKETS
      && dataFull != dataPartial && dataFull != bufferFull && dataPartial != bufferFull
    }

    /** The packed buffer holds the queue, back to back, and the lengths tell them apart. */
    ghost predicate QueueValid()
      reads this`fullNumber, this`fullBufferLen, this`queue, fullLengths, bufferFull
    {
      && Shape()
      && fullNumber == |queue| <= MAX_FULL_PACKETS
      && (forall i :: 0 <= i < fullNumber ==> fullLengths[i] == |queue[i]| <= MAX_TS_SIZE)
      && fullBufferLen <= FULL_BUFFER_SIZE
      && bufferFull[..fullBufferLen] == Flatten(queue)
    }

    ghost predicate PartialValid()
      reads this`lenPartial, this`expectedLenPartial, this`statusPartial, dataPartial
    {
      && Shape()
      && lenPartial <= MAX_TS_SIZE
      && (statusPartial == PARTIAL_HEADER ==> lenPartial < 3)
      && (statusPartial == STARTED ==>
            3 <= lenPartial < expectedLenPartial && expectedLenPartial == FullLength(dataPartial[..lenPartial]))
    }

    ghost predicate Valid()
      reads this, fullLengths, bufferFull, dataPartial
    {
      QueueValid() && PartialValid()
    }

    /** What the four states and their buffers stand for. */
    ghost function Collected(): Partial
      reads this`lenPartial, this`expectedLenPartial, this`statusPartial, this`pid, this`cc, dataPartial
      requires PartialValid()
    {
      if statusPartial == EMPTY || statusPartial == VALID then Idle
      else Collecting(dataPartial[..lenPartial], pid, cc)
    }

    ghost function Abs(): State
      reads this, fullLengths, bufferFull, dataPartial
      requires Valid()
    {
      State(Collected(), queue)
    }

    constructor ()
      ensures Valid() && fresh(dataFull) && fresh(fullLengths) && fresh(bufferFull) && fresh(dataPartial)
      ensures Abs() == State(Idle, [])
    {
      dataFull := new byte[MAX_TS_SIZE](_ => 0);
      fullLengths := new nat[MAX_FULL_PACKETS](_ => 0);
      bufferFull := new byte[FULL_BUFFER_SIZE](_ => 0);
      dataPartial := new byte[MAX_TS_SIZE](_ => 0);
      lenFull, fullNumber, fullBufferLen := 0, 0, 0;
      lenPartial, expectedLenPartial, statusPartial := 0, 0, EMPTY;
      pid, cc := 0, 0;
      queue := [];
    }

    /** Move the collected section to the end of the queue, if it fits. */
    method TsMovePartToFull()
      requires QueueValid() && lenPartial <= MAX_TS_SIZE && statusPartial == VALID
      modifies this`lenPartial, this`statusPartial, this`fullNumber, this`fullBufferLen, this`queue
      modifies bufferFull, fullLengths
      ensures QueueValid() && queue == Push(old(queue), old(dataPartial[..lenPartial]))
      ensures lenPartial <= MAX_TS_SIZE && (statusPartial == VALID || statusPartial == EMPTY)
    {
      FlattenLength(queue);
      if fullNumber >= MAX_FULL_PACKETS {
        return;
      }
      if fullBufferLen + lenPartial >= FULL_BUFFER_SIZE {
        fullBufferLen, fullNumber, lenPartial, statusPartial, queue := 0, 0, 0, EMPTY, [];
        return;
      }
      AppendToQueue(dataPartial[..lenPartial]);
      lenPartial, statusPartial := 0, EMPTY;
    }

    /** The collected section goes behind the others. */
    method AppendToQueue(ghost section: seq<byte>)
      requires QueueValid() && lenPartial <= MAX_TS_SIZE && section == dataPartial[..lenPartial]
      requires fullNumber < MAX_FULL_PACKETS && fullBufferLen + lenPartial <= FULL_BUFFER_SIZE
      modifies this`fullNumber, this`fullBufferLen, this`queue, bufferFull, fullLengths
      ensures QueueValid() && queue == old(queue) + [section]
    {
      hide Flatten;
      FlattenSnoc(queue, section);
      Memcpy(bufferFull, fullBufferLen, dataPartial, 0, lenPartial);
      fullBufferLen := fullBufferLen + lenPartial;
      fullLengths[fullNumber] := lenPartial;
      fullNumber := fullNumber + 1;
      queue := queue + [section];
    }

    method TsCheckCrc32() returns (ok: bool)
      requires Shape() && statusPartial == STARTED && 3 <= lenPartial <= MAX_TS_SIZE
      requires FullLength(dataPartial[..lenPartial]) == lenPartial
      modifies this`lenPartial, this`statusPartial
      ensures ok == Accepts(old(dataPartial[..lenPartial]))
      ensures ok ==> statusPartial == VALID && lenPartial == old(lenPartial)
      ensures !ok ==> statusPartial == EMPTY && lenPartial == 0
    {
      assert dataPartial[..lenPartial][..3] == dataPartial[..][..3];
      SameLengthField(dataPartial[..lenPartial], dataPartial[..]);
      ok := TsCheckRawCrc32(dataPartial);
      if !ok {
        statusPartial, lenPartial := EMPTY, 0;
      } else {
        statusPartial := VALID;
      }
    }

    method TsPartialFull() returns (full: bool)
      modifies this`lenPartial
      ensures full == (old(lenPartial) >= expectedLenPartial)
      ensures lenPartial == if full then expectedLenPartial else old(lenPartial)
    {
      if lenPartial >= expectedLenPartial {
        lenPartial := expectedLenPartial;
        return true;
      }
      return false;
    }

    /** The bytes a call of AddTsPacketData stands for. */
    static ghost function Added(partial: Partial, bytes: seq<byte>, start: StartFlag, p: nat, c: nat): Outcome
    {
      match start
      case NO_START => Extend(partial, bytes, p, c)
      case START_TS => Start(bytes, p, c)
      case START_SECTION => AfterSection(bytes, p, c)
    }

    /** If the section being collected is complete: check it and queue it. */
    method FinishIfFull()
      requires QueueValid() && statusPartial == STARTED && 3 <= lenPartial <= MAX_TS_SIZE
      requires lenPartial <= expectedLenPartial == FullLength(dataPartial[..lenPartial])
      modifies this`lenPartial, this`statusPartial, this`fullNumber, this`fullBufferLen, this`queue
      modifies bufferFull, fullLengths
      ensures Valid()
      ensures old(lenPartial) < expectedLenPartial ==>
                statusPartial == STARTED && lenPartial == old(lenPartial) && queue == old(queue)
      ensures old(lenPartial) == expectedLenPartial ==>
                Collected() == Idle && queue == PushAll(old(queue), Check(old(dataPartial[..lenPartial])))
    {
      var full := TsPartialFull();
      if full {
        ghost var section := dataPartial[..lenPartial];
        var ok := TsCheckCrc32();
        if ok {
          TsMovePartToFull();
          assert PushAll(old(queue), [section]) == PushAll(Push(old(queue), section), [section][1..]);
        }
      }
    }

    /** Start collecting at buf: a short header, or as much of the section as is there. */
    method BeginSection(buf: array<byte>, offset: nat, dataLeft0: nat, p: nat, c: nat, ghost bytes: seq<byte>)
      returns (dataLeft: nat, copyLen: nat)
      requires QueueValid() && buf != dataPartial
      requires offset + dataLeft0 <= buf.Length && bytes == buf[offset..offset + dataLeft0]
      requires dataLeft0 <= TS_PACKET_SIZE
      modifies this`lenPartial, this`statusPartial, this`expectedLenPartial, this`pid, this`cc, dataPartial
      ensures pid == p && cc == c && lenPartial <= dataLeft0
      ensures dataPartial[..lenPartial] == bytes[..lenPartial]
      ensures dataLeft0 < 3 ==> statusPartial == PARTIAL_HEADER && lenPartial == dataLeft0 && dataLeft == 0
      ensures dataLeft0 >= 3 ==> statusPartial == STARTED
      ensures dataLeft0 >= 3 ==> expectedLenPartial == FullLength(bytes)
      ensures dataLeft0 >= 3 ==> lenPartial == copyLen == Min(expectedLenPartial, dataLeft0)
      ensures dataLeft0 >= 3 ==> dataLeft == dataLeft0 - copyLen
    {
      dataLeft, copyLen := dataLeft0, 0;
      cc, pid := c, p;
      if dataLeft < 3 {
        statusPartial := PARTIAL_HEADER;
        CollectFirst(buf, offset, dataLeft0, dataLeft, bytes);
        lenPartial, expectedLenPartial := dataLeft, 0;
        dataLeft := 0;
      } else {
        statusPartial := STARTED;
        expectedLenPartial := buf[offset + 1] as int % 16 * 256 + buf[offset + 2] as int + BYTES_BFR_SEC_LEN;
        copyLen := if expectedLenPartial < dataLeft then expectedLenPartial else dataLeft;
        lenPartial := copyLen;
        CollectFirst(buf, offset, dataLeft0, copyLen, bytes);
        dataLeft := dataLeft - copyLen;
      }
    }

    /** The first n of the packet's bytes. */
    method CollectFirst(buf: array<byte>, offset: nat, dataLeft: nat, n: nat, ghost bytes: seq<byte>)
      requires Shape() && buf != dataPartial && n <= dataLeft <= TS_PACKET_SIZE
      requires offset + dataLeft <= buf.Length && bytes == buf[offset..offset + dataLeft]
      modifies dataPartial
      ensures dataPartial[..n] == bytes[..n]
    {
      Memcpy(dataPartial, 0, buf, offset, n);
      SubPrefix(buf[..], offset, dataLeft, n);
      assert dataPartial[..n] == dataPartial[0..n];
    }

    /** May the packet (p, c) extend the section being collected?  If not, the state is settled here. */
    method Follows(p: nat, c: nat) returns (going: bool)
      modifies this`statusPartial
      ensures going == (old(statusPartial == STARTED || statusPartial == PARTIAL_HEADER)
                        && cc != c && (cc + 1) % 16 == c && pid == p)
      ensures going || (old(statusPartial == STARTED || statusPartial == PARTIAL_HEADER) && cc == c)
              ==> statusPartial == old(statusPartial)
      ensures !going && !(old(statusPartial == STARTED || statusPartial == PARTIAL_HEADER) && cc == c)
              ==> statusPartial == EMPTY
    {
      if statusPartial != STARTED && statusPartial != PARTIAL_HEADER {
        statusPartial := EMPTY;
        return false;
      } else if cc == c {
        return false;
      } else if (cc + 1) % 16 != c {
        statusPartial := EMPTY;
        return false;
      } else if pid != p {
        statusPartial := EMPTY;
        return false;
      }
      return true;
    }

    /** Bring a section that has lost its header between two packets to the point where its length is known. */
    method CompleteHeader(buf: array<byte>, offset: nat, dataLeft: nat, ghost bytes: seq<byte>) returns (going: bool)
      requires PartialValid() && buf != dataPartial && (statusPartial == STARTED || statusPartial == PARTIAL_HEADER)
      requires offset + dataLeft <= buf.Length && bytes == buf[offset..offset + dataLeft]
      modifies this`statusPartial, this`expectedLenPartial, dataPartial
      ensures dataPartial[..lenPartial] == old(dataPartial[..lenPartial])
      ensures going == (lenPartial + dataLeft >= 3)
      ensures !going ==> statusPartial == EMPTY
      ensures going ==> statusPartial == STARTED
                        && expectedLenPartial == FullLength(dataPartial[..lenPartial] + bytes)
    {
      ghost var total := dataPartial[..lenPartial] + bytes;
      if statusPartial == PARTIAL_HEADER {
        // the program's guard against len_partial >= 3 here never fires: it is the invariant
        assert lenPartial < 3;
        if 3 - lenPartial > dataLeft {
          statusPartial := EMPTY;
          return false;
        }
        ghost var had := dataPartial[..lenPartial];
        Memcpy(dataPartial, lenPartial, buf, offset, 3 - lenPartial);
        SubPrefix(buf[..], offset, dataLeft, 3 - lenPartial);
        assert dataPartial[..3] == had + bytes[..3 - lenPartial] == total[..3];
        assert dataPartial[..lenPartial] == dataPartial[..3][..lenPartial] == had;
        assert dataPartial[1] == dataPartial[..3][1] && dataPartial[2] == dataPartial[..3][2];
        expectedLenPartial := dataPartial[1] as int % 16 * 256 + dataPartial[2] as int + BYTES_BFR_SEC_LEN;
        statusPartial := STARTED;
      }
      return true;
    }

    /** Append what still belongs to the section, as far as the buffer goes. */
    method AppendData(buf: array<byte>, offset: nat, dataLeft: nat, c: nat, ghost bytes: seq<byte>)
      requires Shape() && buf != dataPartial && lenPartial <= MAX_TS_SIZE && lenPartial <= expectedLenPartial
      requires offset + dataLeft <= buf.Length && bytes == buf[offset..offset + dataLeft]
      modifies this`lenPartial, this`cc, dataPartial
      ensures cc == c
      ensures var total := old(dataPartial[..lenPartial]) + bytes;
              && lenPartial == Min(Min(|total|, expectedLenPartial), MAX_TS_SIZE)
              && dataPartial[..lenPartial] == total[..lenPartial]
    {
      var copyLen :=
        if lenPartial + dataLeft > expectedLenPartial then expectedLenPartial - lenPartial else dataLeft;
      if lenPartial + copyLen > MAX_TS_SIZE {
        copyLen := MAX_TS_SIZE - lenPartial;
      }
      ghost var had := dataPartial[..lenPartial];
      Memcpy(dataPartial, lenPartial, buf, offset, copyLen);
      SubPrefix(buf[..], offset, dataLeft, copyLen);
      assert dataPartial[..lenPartial + copyLen] == had + bytes[..copyLen] == (had + bytes)[..lenPartial + copyLen];
      lenPartial := lenPartial + copyLen;
      cc := c;
    }

    /**
     Extend the section being collected.  If the packet does not fit it, the state is settled
     here; otherwise the section has grown and may be complete.
     */
    method ExtendPartial(buf: array<byte>, offset: nat, dataLeft: nat, p: nat, c: nat, ghost bytes: seq<byte>)
      returns (going: bool)
      requires PartialValid() && buf != dataPartial
      requires offset + dataLeft <= buf.Length && bytes == buf[offset..offset + dataLeft]
      requires dataLeft <= TS_PACKET_SIZE
      modifies this`lenPartial, this`statusPartial, this`expectedLenPartial, this`cc, dataPartial
      ensures !going ==> PartialValid()
      ensures !going ==>
                Extend(old(Collected()), bytes, p, c) == Outcome(Collected(), [])
      ensures going ==>
                && statusPartial == STARTED && pid == p && cc == c && 3 <= lenPartial <= MAX_TS_SIZE
                && lenPartial <= expectedLenPartial == FullLength(dataPartial[..lenPartial])
      ensures going ==>
                Extend(old(Collected()), bytes, p, c)
                == if lenPartial == expectedLenPartial then Outcome(Idle, Check(dataPartial[..lenPartial]))
                   else Outcome(Collecting(dataPartial[..lenPartial], p, c), [])
    {
      hide Append;
      going := Follows(p, c);
      if going {
        going := GrowPartial(buf, offset, dataLeft, p, c, bytes);
      }
    }

    /** The packet follows: complete the header if need be, and append. */
    method GrowPartial(buf: array<byte>, offset: nat, dataLeft: nat, p: nat, c: nat, ghost bytes: seq<byte>)
      returns (going: bool)
      requires PartialValid() && buf != dataPartial && (statusPartial == STARTED || statusPartial == PARTIAL_HEADER)
      requires offset + dataLeft <= buf.Length && bytes == buf[offset..offset + dataLeft] && pid == p
      requires dataLeft <= TS_PACKET_SIZE
      modifies this`lenPartial, this`statusPartial, this`expectedLenPartial, this`cc, dataPartial
      ensures !going ==> statusPartial == EMPTY && lenPartial == old(lenPartial)
      ensures !going ==> Append(old(dataPartial[..lenPartial]) + bytes, p, c) == Outcome(Idle, [])
      ensures going ==>
                && statusPartial == STARTED && cc == c && 3 <= lenPartial <= MAX_TS_SIZE
                && lenPartial <= expectedLenPartial == FullLength(dataPartial[..lenPartial])
      ensures going ==>
                Append(old(dataPartial[..lenPartial]) + bytes, p, c)
                == if lenPartial == expectedLenPartial then Outcome(Idle, Check(dataPartial[..lenPartial]))
                   else Outcome(Collecting(dataPartial[..lenPartial], p, c), [])
    {
      hide Append, Check;
      ghost var total := dataPartial[..lenPartial] + bytes;
      going := CompleteHeader(buf, offset, dataLeft, bytes);
      if !going {
        AppendShort(total, p, c);
        return;
      }
      AppendData(buf, offset, dataLeft, c, bytes);
      TruncatedLength(total, lenPartial);
      AppendStep(total, p, c, lenPartial);
    }

    /** The continuation half of AddTsPacketData: no new section can begin in these bytes. */
    method AddContinuation(buf: array<byte>, offset: nat, dataLeft: nat, p: nat, c: nat, ghost bytes: seq<byte>)
      requires Valid() && buf != dataPartial
      requires offset + dataLeft <= buf.Length && bytes == buf[offset..offset + dataLeft]
      requires dataLeft <= TS_PACKET_SIZE
      modifies this`lenPartial, this`statusPartial, this`expectedLenPartial, this`cc
      modifies this`fullNumber, this`fullBufferLen, this`queue
      modifies bufferFull, fullLengths, dataPartial
      ensures Valid()
      ensures var out := Extend(old(Collected()), bytes, p, c);
              Collected() == out.partial && queue == PushAll(old(queue), out.done)
    {
      var going := ExtendPartial(buf, offset, dataLeft, p, c, bytes);
      if going {
        FinishIfFull();
      }
    }

    /** Begin one section; finish it at once if all of it is there. */
    method AddOneSection(buf: array<byte>, offset: nat, dataLeft0: nat, p: nat, c: nat, ghost bytes: seq<byte>)
      returns (dataLeft: nat, copyLen: nat)
      requires Valid() && buf != dataPartial
      requires offset + dataLeft0 <= buf.Length && bytes == buf[offset..offset + dataLeft0]
      requires dataLeft0 <= TS_PACKET_SIZE
      modifies this`lenPartial, this`statusPartial, this`expectedLenPartial, this`pid, this`cc
      modifies this`fullNumber, this`fullBufferLen, this`queue
      modifies bufferFull, fullLengths, dataPartial
      ensures Valid()
      ensures var bytes := bytes;
              if |bytes| < 3 || |bytes| < FullLength(bytes) then
                dataLeft == 0 && Collected() == Collecting(bytes, p, c) && queue == old(queue)
              else
                && copyLen == FullLength(bytes) && dataLeft == dataLeft0 - copyLen && Collected() == Idle
                && queue == PushAll(old(queue), Check(bytes[..copyLen]))
    {
      dataLeft, copyLen := BeginSection(buf, offset, dataLeft0, p, c, bytes);
      assert bytes[..|bytes|] == bytes;
      if statusPartial != PARTIAL_HEADER {
        FinishIfFull();
      }
    }

    /** The starting half of AddTsPacketData: sections begin here, one after the other. */
    method AddSections(buf: array<byte>, offset: nat, dataLeft0: nat, p: nat, c: nat, ghost bytes: seq<byte>)
      requires Valid() && buf != bufferFull && buf != dataPartial
      requires offset + dataLeft0 <= buf.Length && bytes == buf[offset..offset + dataLeft0]
      requires dataLeft0 <= TS_PACKET_SIZE
      modifies this`lenPartial, this`statusPartial, this`expectedLenPartial, this`pid, this`cc
      modifies this`fullNumber, this`fullBufferLen, this`queue
      modifies bufferFull, fullLengths, dataPartial
      ensures Valid()
      ensures var out := Start(bytes, p, c);
              Collected() == out.partial && queue == PushAll(old(queue), out.done)
      decreases dataLeft0
    {
      hide Start, AfterSection, PushAll, Check, QueueValid;
      ghost var all := buf[..];
      StartStep(queue, bytes, p, c);
      var dataLeft, copyLen := AddOneSection(buf, offset, dataLeft0, p, c, bytes);
      if dataLeft > 0 {
        DropDrop(all, offset, dataLeft0, copyLen);
        // stuffing after a section: the rest of the packet is ignored
        if buf[offset + copyLen] != 0xff {
          AddSections(buf, offset + copyLen, dataLeft, p, c, bytes[copyLen..]);
        }
      }
    }

    /** Give dataLeft0 bytes of a packet to the section being collected, or to new sections. */
    method AddTsPacketData(buf: array<byte>, offset: nat, dataLeft0: nat, start: StartFlag, p: nat, c: nat,
      ghost bytes: seq<byte>)
      requires Valid() && buf != bufferFull && buf != dataPartial
      requires offset + dataLeft0 <= buf.Length && bytes == buf[offset..offset + dataLeft0]
      requires dataLeft0 <= TS_PACKET_SIZE
      requires start == START_SECTION ==> dataLeft0 > 0 && Collected() == Idle
      modifies this`lenPartial, this`statusPartial, this`expectedLenPartial, this`pid, this`cc
      modifies this`fullNumber, this`fullBufferLen, this`queue
      modifies bufferFull, fullLengths, dataPartial
      ensures Valid()
      ensures var out := Added(old(Collected()), bytes, start, p, c);
              Collected() == out.partial && queue == PushAll(old(queue), out.done)
    {
      if start == NO_START {
        AddContinuation(buf, offset, dataLeft0, p, c, bytes);
      } else if start == START_SECTION && buf[offset] == 0xff {
      } else {
        AddSections(buf, offset, dataLeft0, p, c, bytes);
      }
    }

    /** The head of the queue leaves; the rest moves up. */
    method RemoveHead()
      requires QueueValid() && fullNumber > 0
      modifies this`fullNumber, this`fullBufferLen, this`queue, bufferFull, fullLengths
      ensures QueueValid() && queue == old(queue)[1..]
    {
      ghost var others, packed := queue[1..], bufferFull[..fullBufferLen];
      FlattenHead(queue, packed);
      var len := fullLengths[0];
      fullNumber := fullNumber - 1;
      fullBufferLen := fullBufferLen - len;
      if fullNumber > 0 {
        MoveUp(len, packed);
      }
      queue := others;
    }

    /** The bytes from len on and the lengths from the second on move to the start of their buffers. */
    method MoveUp(len: nat, ghost packed: seq<byte>)
      requires Shape() && len + fullBufferLen <= FULL_BUFFER_SIZE && packed == bufferFull[..len + fullBufferLen]
      modifies bufferFull, fullLengths
      ensures bufferFull[..fullBufferLen] == packed[len..]
      ensures forall i :: 0 <= i < MAX_FULL_PACKETS - 1 ==> fullLengths[i] == old(fullLengths[i + 1])
    {
      assert bufferFull[len..len + fullBufferLen] == packed[len..];
      MoveDown(bufferFull, len, fullBufferLen);
      ghost var lengths := fullLengths[1..MAX_FULL_PACKETS];
      MoveDown(fullLengths, 1, MAX_FULL_PACKETS - 1);
      assert forall i :: 0 <= i < MAX_FULL_PACKETS - 1 ==>
        fullLengths[i] == fullLengths[..MAX_FULL_PACKETS - 1][i] == lengths[i];
    }

    /** The full packet at the head of the queue goes to dataFull. */
    method Pop()
      requires Valid() && fullNumber > 0
      modifies this`lenFull, this`fullNumber, this`fullBufferLen, this`queue, dataFull, bufferFull, fullLengths
      ensures Valid() && Collected() == old(Collected())
      ensures queue == old(queue)[1..]
      ensures lenFull == |old(queue)[0]| && dataFull[..lenFull] == old(queue)[0]
    {
      FlattenHead(queue, bufferFull[..fullBufferLen]);
      lenFull := fullLengths[0];
      Memcpy(dataFull, 0, bufferFull, 0, lenFull);
      RemoveHead();
    }

    /** Read the header; skip tells that the packet has no payload the program uses. */
    method ParseHeader(buf: array<byte>, ghost p: Packet)
      returns (skip: bool, start: bool, offset: nat, bufPid: nat, counter: nat)
      requires buf.Length == TS_PACKET_SIZE && p == buf[..]
      ensures skip == Unusable(p) && start == Pusi(p)
      ensures !skip ==> offset == PayloadOffset(p) < TS_PACKET_SIZE
      ensures bufPid == Pid(p) && counter == ContinuityCounter(p)
    {
      offset, skip := 4, false;
      start := buf[1] / 64 % 2 == 1;
      bufPid := buf[1] as int % 32 * 256 + buf[2] as int;
      counter := buf[3] as int % 16;
      var afc := buf[3] / 16 % 4;
      if afc >= 2 {
        offset := offset + buf[offset] as int + 1;
        if offset >= TS_PACKET_SIZE {
          skip := true;
          return;
        }
      } else if afc == 1 {
        if buf[offset] == 0 && buf[offset + 1] == 0 && buf[offset + 2] == 1 {
          skip := true;
          return;
        }
      }
      if afc == 2 {
        skip := true;
      }
    }

    /** The end of the collected section, if the pointer field says there is one. */
    method FeedTail(buf: array<byte>, offset: nat, n: nat, bufPid: nat, counter: nat, ghost tail: seq<byte>)
      requires Valid() && buf != bufferFull && buf != dataPartial
      requires offset + n <= buf.Length == TS_PACKET_SIZE && tail == buf[offset..offset + n]
      modifies this`lenPartial, this`statusPartial, this`expectedLenPartial, this`pid, this`cc
      modifies this`fullNumber, this`fullBufferLen, this`queue
      modifies bufferFull, fullLengths, dataPartial
      ensures Valid()
      ensures tail == [] ==> queue == old(queue)
      ensures tail != [] ==> queue == PushAll(old(queue), Extend(old(Collected()), tail, bufPid, counter).done)
    {
      if n != 0 {
        AddTsPacketData(buf, offset, n, NO_START, bufPid, counter, tail);
      }
    }

    /** The end of the collected section, then new sections. */
    method FeedBegin(buf: array<byte>, offset: nat, n: nat, bufPid: nat, counter: nat, ghost tail: seq<byte>,
      ghost body: seq<byte>)
      requires Valid() && buf != bufferFull && buf != dataPartial
      requires offset + n <= buf.Length == TS_PACKET_SIZE && tail == buf[offset..offset + n]
      requires body == buf[offset + n..TS_PACKET_SIZE]
      modifies this`lenPartial, this`statusPartial, this`expectedLenPartial, this`pid, this`cc
      modifies this`fullNumber, this`fullBufferLen, this`queue
      modifies bufferFull, fullLengths, dataPartial
      ensures Valid()
      ensures var out := Act(old(Collected()), Begin(tail, body), bufPid, counter);
              Collected() == out.partial && queue == PushAll(old(queue), out.done)
    {
      hide Extend, Start, PushAll, QueueValid, Act;
      ActBegin(Collected(), queue, tail, body, bufPid, counter);
      FeedTail(buf, offset, n, bufPid, counter, tail);
      AddTsPacketData(buf, offset + n, TS_PACKET_SIZE - (offset + n), START_TS, bufPid, counter, body);
    }

    /** A packet with a pointer field. */
    method FeedStart(buf: array<byte>, at: nat, bufPid: nat, counter: nat, ghost p: Packet) returns (early: bool)
      requires Valid() && buf.Length == TS_PACKET_SIZE && at < TS_PACKET_SIZE && p == buf[..]
      requires buf != bufferFull && buf != dataPartial
      modifies this`lenPartial, this`statusPartial, this`expectedLenPartial, this`pid, this`cc
      modifies this`fullNumber, this`fullBufferLen, this`queue
      modifies bufferFull, fullLengths, dataPartial
      ensures Valid()
      ensures early == ClassifyStart(p, at).Drop?
      ensures var out := Act(old(Collected()), ClassifyStart(p, at), bufPid, counter);
              Collected() == out.partial && queue == PushAll(old(queue), out.done)
    {
      var pointerField := buf[at] as nat;
      var offset := at + 1;
      if offset + pointerField > TS_PACKET_SIZE {
        statusPartial := EMPTY;
        return true;
      }
      hide Act, PushAll, QueueValid;
      ghost var action := ClassifyStart(p, at);
      FeedBegin(buf, offset, pointerField, bufPid, counter, action.tail, action.body);
      early := false;
    }

    /** Read the header of buf and pass its payload on; early tells that the packet was of no use. */
    method FeedPacket(buf: array<byte>, ghost p: Packet) returns (early: bool)
      requires Valid() && buf.Length == TS_PACKET_SIZE && p == buf[..]
      requires buf != bufferFull && buf != dataPartial
      modifies this`lenPartial, this`statusPartial, this`expectedLenPartial, this`pid, this`cc
      modifies this`fullNumber, this`fullBufferLen, this`queue
      modifies bufferFull, fullLengths, dataPartial
      ensures Valid()
      ensures early == (Classify(p).Skip? || Classify(p).Drop?)
      ensures Collected() == Feed(old(Collected()), p).partial
      ensures queue == PushAll(old(queue), Feed(old(Collected()), p).done)
    {
      var skip, start, offset, bufPid, counter := ParseHeader(buf, p);
      if skip {
        return true;
      }
      if start {
        early := FeedStart(buf, offset, bufPid, counter, p);
      } else {
        AddTsPacketData(buf, offset, TS_PACKET_SIZE - offset, NO_START, bufPid, counter, p[offset..]);
        early := false;
      }
    }

    /**
     Take in one packet (or none, to pop only).  At most one finished section is handed out in
     dataFull; the packet's own sections come out of later calls.
     */
    method GetTsPacket(buf: array?<byte>) returns (available: bool)
      requires Valid()
      requires buf != null ==> buf.Length == TS_PACKET_SIZE
      requires buf != dataFull && buf != bufferFull && buf != dataPartial
      modifies this, dataFull, bufferFull, fullLengths, dataPartial
      ensures Valid()
      ensures var input := if buf == null then None else Some(old(buf[..]));
              var reply := Call(old(Abs()), input);
              && Abs() == reply.state
              && available == reply.available
              && (reply.popped.Some? ==> lenFull <= MAX_TS_SIZE && dataFull[..lenFull] == reply.popped.value)
              && (reply.popped.None? ==> lenFull == old(lenFull) && dataFull[..] == old(dataFull[..]))
    {
      available := false;
      if fullNumber > 0 {
        Pop();
        available := true;
      }
      if buf == null {
        return;
      }
      var early := FeedPacket(buf, buf[..]);
      if early {
        available := fullNumber > 0;
      }
    }
  }

  /** What a packet with a pointer field does to the queue, in the order it does it. */
  lemma ActBegin(partial: Partial, queue: seq<seq<byte>>, tail: seq<byte>, body: seq<byte>, p: nat, c: nat)
    ensures Act(partial, Begin(tail, body), p, c).partial == Start(body, p, c).partial
    ensures var left := if tail == [] then queue else PushAll(queue, Extend(partial, tail, p, c).done);
            PushAll(queue, Act(partial, Begin(tail, body), p, c).done) == PushAll(left, Start(body, p, c).done)
  {
    var before := if tail == [] then [] else Extend(partial, tail, p, c).done;
    PushAllAppend(queue, before, Start(body, p, c).done);
  }

  /** Append, told apart by how much of the section is there. */
  lemma AppendShort(total: seq<byte>, p: nat, c: nat)
    requires |total| < 3
    ensures Append(total, p, c) == Outcome(Idle, [])
  {
  }

  lemma AppendStep(total: seq<byte>, p: nat, c: nat, n: nat)
    requires |total| >= 3 && n == Min(Min(|total|, FullLength(total)), MAX_TS_SIZE)
    ensures n == FullLength(total) ==> Append(total, p, c) == Outcome(Idle, Check(total[..n]))
    ensures n < FullLength(total) ==> Append(total, p, c) == Outcome(Collecting(total[..n], p, c), [])
  {
  }

  /** One section of Start, with the queue it leaves. */
  lemma StartStep(queue: seq<seq<byte>>, bytes: seq<byte>, p: nat, c: nat)
    ensures |bytes| < 3 || |bytes| < FullLength(bytes) ==>
              Start(bytes, p, c) == Outcome(Collecting(bytes, p, c), []) && PushAll(queue, []) == queue
    ensures |bytes| >= 3 && |bytes| >= FullLength(bytes) ==>
              var n := FullLength(bytes);
              var left := PushAll(queue, Check(bytes[..n]));
              var out := Start(bytes, p, c);
              if |bytes| == n || bytes[n] == 0xff then
                out.partial == Idle && PushAll(queue, out.done) == left
              else
                var next := Start(bytes[n..], p, c);
                out.partial == next.partial && PushAll(queue, out.done) == PushAll(left, next.done)
  {
    if |bytes| >= 3 && |bytes| >= FullLength(bytes) {
      var n := FullLength(bytes);
      PushAllAppend(queue, Check(bytes[..n]), AfterSection(bytes[n..], p, c).done);
    }
  }
}

/** The code of the three threads: each critical section is one step of the state machine. */
module RingThreads {
  import opened Bytes
  import opened Sections
  import opened RingSize
  import opened Ring
  import opened RingSafety

  /** The entries before the terminator. */
  function Entries(batch: seq<Option<Held>>): seq<Held>
  {
    if batch == [] || batch[0].None? then [] else [batch[0].value] + Entries(batch[1..])
  }

  lemma {:induction false} EntriesFull(batch: seq<Option<Held>>)
    requires forall i :: 0 <= i < |batch| ==> batch[i].Some?
    ensures |Entries(batch)| == |batch|
    ensures forall i :: 0 <= i < |batch| ==> batch[i] == Some(Entries(batch)[i])
  {
    if batch != [] {
      EntriesFull(batch[1..]);
    }
  }

  lemma {:induction false} EntriesAppend(batch: seq<Option<Held>>, held: Held)
    requires forall i :: 0 <= i < |batch| ==> batch[i].Some?
    ensures Entries(batch + [Some(held)]) == Entries(batch) + [held]
  {
    if batch != [] {
      assert (batch + [Some(held)])[1..] == batch[1..] + [Some(held)];
      EntriesAppend(batch[1..], held);
    } else {
      assert Entries([Some(held)]) == [held] + Entries([]);
    }
  }

  /** Writing the next entry of a batch that is filled up to n. */
  lemma EntriesPut(batch: seq<Option<Held>>, more: seq<Option<Held>>, n: nat, held: Held)
    requires n < |batch| && more == batch[n := Some(held)]
    requires forall i :: 0 <= i < n ==> batch[i].Some?
    ensures Entries(more[..n + 1]) == Entries(batch[..n]) + [held]
  {
    assert more[..n + 1] == batch[..n] + [Some(held)];
    EntriesAppend(batch[..n], held);
  }

  /** n steps of the unlocked work. */
  ghost function WorkFor(c: Config, s: State, n: nat): State
  {
    if n == 0 then s
    else
      var before := WorkFor(c, s, n - 1);
      if Enabled(c, before, Event.Work) then Next(c, before, Event.Work) else before
  }

  lemma {:induction false} WorkForAdd(c: Config, s: State, m: nat, n: nat)
    ensures WorkFor(c, s, m + n) == WorkFor(c, WorkFor(c, s, m), n)
  {
    hide Next, Enabled;
    if n > 0 {
      WorkForAdd(c, s, m, n - 1);
    }
  }

  lemma ProgramAt(s: State, stage: Stage, parity: Parity, i: nat)
    requires i < |s.Of(parity)|
    ensures var k := (if parity.Even? then 0 else 2 * |s.even|) + (if stage.Decrypt? then 0 else |s.Of(parity)|) + i;
      && k < |Program(s)| && Program(s)[k] == Op(stage, parity, s.Of(parity)[i])
      && Program(s)[k] in Program(s)
  {
  }

  /** A held packet has its key loaded. */
  lemma HeldHasKey(c: Config, s: State, h: History, parity: Parity)
    requires Inv(c, s, h) && s.Of(parity) != []
    ensures s.keys.Of(parity).Some?
  {
    var k := BatchSlots(h, parity, h.released, |h.uses|, c.size, 0);
  }

  lemma ReleaseIs(c: Config, s: State)
    requires Enabled(c, s, Event.Release)
    ensures Next(c, s, Event.Release)
         == s.(toSend := s.toSend + s.scrambled + s.nscrambled, scrambled := 0, nscrambled := 0,
               even := [], odd := [], caIdx := s.channelCa, phase := Collecting)
  {
  }

  lemma WriteInside(c: Config, s: State, h: History)
    requires Inv(c, s, h)
    ensures s.writeIdx < c.size == |s.slots|
  {
  }

  class Channel {
    const config: Config
    const data: array<Packet>
    const evenBatch: array<Option<Held>>
    const oddBatch: array<Option<Held>>
    var writeIdx: nat
    var decsaIdx: nat
    var sendIdx: nat
    var toDescramble: nat
    var toSend: nat
    var scrambled: nat
    var nscrambled: nat
    var evenIdx: byte
    var oddIdx: byte
    var evenKey: Option<Key>
    var oddKey: Option<Key>
    var caIdx: nat
    var evenCw: Option<Key>
    var oddCw: Option<Key>
    var channelCa: nat
    ghost var phase: Phase
    ghost var history: History

    ghost function Abs(): State
      reads this, data, evenBatch, oddBatch
      requires evenIdx as nat <= evenBatch.Length && oddIdx as nat <= oddBatch.Length
    {
      State(data[..], writeIdx, decsaIdx, sendIdx, toDescramble, toSend, scrambled, nscrambled,
            Entries(evenBatch[..evenIdx]), Entries(oddBatch[..oddIdx]),
            Keys(evenKey, oddKey), caIdx, phase, Keys(evenCw, oddCw), channelCa)
    }

    ghost predicate Shape()
      reads this, evenBatch, oddBatch
    {
      && IsPower(config.size) && data.Length == config.size
      && 0 < config.batch <= 255
      && evenBatch != oddBatch && evenBatch.Length == oddBatch.Length == config.batch + 1
      && evenIdx as nat <= config.batch && oddIdx as nat <= config.batch
      && (forall i :: 0 <= i < evenIdx as nat ==> evenBatch[i].Some?)
      && (forall i :: 0 <= i < oddIdx as nat ==> oddBatch[i].Some?)
      && (phase.Working? ==> evenBatch[evenIdx].None? && oddBatch[oddIdx].None?)
    }

    ghost predicate Valid()
      reads this, data, evenBatch, oddBatch
    {
      Shape() && Inv(config, Abs(), history)
    }

    constructor (config: Config)
      requires IsPower(config.size) && 0 < config.batch <= 255
      ensures Valid() && fresh(data) && fresh(evenBatch) && fresh(oddBatch)
      ensures this.config == config && history == NOTHING
      ensures Abs() == Initial(config, data[..], Keys(None, None), 0)
    {
      this.config := config;
      data := new Packet[config.size](_ => Repeat(0, 188));
      evenBatch := new Option<Held>[config.batch + 1](_ => None);
      oddBatch := new Option<Held>[config.batch + 1](_ => None);
      writeIdx, decsaIdx, sendIdx, toDescramble, toSend, scrambled, nscrambled := 0, 0, 0, 0, 0, 0, 0;
      evenIdx, oddIdx, evenKey, oddKey, caIdx, evenCw, oddCw, channelCa := 0, 0, None, None, 0, None, None, 0;
      phase, history := Collecting, NOTHING;
      new;
      assert data[..] == Abs().slots;
      InitialHolds(config, data[..], Keys(None, None), 0);
    }

    ghost method Advance(e: Event, before: State)
      requires Shape() && Inv(config, before, history) && Enabled(config, before, e) && Abs() == Next(config, before, e)
      modifies this`history
      ensures Valid() && history == Record(config, before, old(history), e) && Abs() == old(Abs())
    {
      hide Inv, Next, Record, Enabled, Entries;
      StepKeeps(config, before, history, e);
      history := Record(config, before, history, e);
    }

    /** The producer's critical section: it does not ask for room, and is the Write step when there is some. */
    method Write(tsPacket: Packet)
      requires Valid()
      modifies this, data
      ensures Shape() && old(writeIdx) < |old(Abs()).slots| && Abs() == Put(config, old(Abs()), tsPacket)
      ensures Enabled(config, old(Abs()), Event.Write(tsPacket)) <==> Outstanding(old(Abs())) < config.size
      ensures Outstanding(old(Abs())) < config.size ==>
        Valid() && history == Record(config, old(Abs()), old(history), Event.Write(tsPacket))
    {
      hide Inv, Record, Program, Entries;
      ghost var s := Abs();
      InvIsShaped(config, s, history);
      WriteInside(config, s, history);
      Place(tsPacket);
      if Outstanding(s) < config.size {
        Advance(Event.Write(tsPacket), s);
      }
    }

    /** The packet goes to the write position, which moves on. */
    method Place(tsPacket: Packet)
      requires Shape() && writeIdx < config.size
      modifies this`writeIdx, this`toDescramble, data
      ensures Shape() && Abs() == Put(config, old(Abs()), tsPacket)
    {
      hide Entries;
      data[writeIdx] := tsPacket;
      writeIdx := writeIdx + 1;
      MaskWraps(writeIdx, config.size);
      writeIdx := And(writeIdx, config.size - 1);
      toDescramble := toDescramble + 1;
    }

    /** The sender's critical section. */
    method Send() returns (packet: Packet)
      requires Valid() && Enabled(config, Abs(), Event.Send)
      modifies this
      ensures Valid() && Abs() == Next(config, old(Abs()), Event.Send)
      ensures history == old(history).(sent := old(history).sent + [packet])
    {
      hide Inv, Program, Entries;
      ghost var s := Abs();
      packet := data[sendIdx];
      sendIdx := sendIdx + 1;
      MaskWraps(sendIdx, config.size);
      sendIdx := And(sendIdx, config.size - 1);
      toSend := toSend - 1;
      Advance(Event.Send, s);
    }

    // ---------- the descrambler ----------

    method HoldEven(offset: nat)
      requires Shape() && phase.Collecting? && evenIdx as nat < config.batch
      modifies this`evenIdx, evenBatch
      ensures Shape()
      ensures Abs() == old(Abs()).(even := old(Abs()).even + [Held(decsaIdx, offset)])
    {
      hide Entries;
      ghost var before := evenBatch[..];
      evenBatch[evenIdx] := Some(Held(decsaIdx, offset));
      EntriesPut(before, evenBatch[..], evenIdx, Held(decsaIdx, offset));
      evenIdx := evenIdx + 1;
    }

    method HoldOdd(offset: nat)
      requires Shape() && phase.Collecting? && oddIdx as nat < config.batch
      modifies this`oddIdx, oddBatch
      ensures Shape()
      ensures Abs() == old(Abs()).(odd := old(Abs()).odd + [Held(decsaIdx, offset)])
    {
      hide Entries;
      ghost var before := oddBatch[..];
      oddBatch[oddIdx] := Some(Held(decsaIdx, offset));
      EntriesPut(before, oddBatch[..], oddIdx, Held(decsaIdx, offset));
      oddIdx := oddIdx + 1;
    }

    /** The switch on the scrambling control bits. */
    method Sort(tsPacket: Packet)
      requires Shape() && phase.Collecting? && evenIdx as nat < config.batch && oddIdx as nat < config.batch
      modifies this`scrambled, this`nscrambled, this`evenIdx, this`oddIdx, evenBatch, oddBatch
      ensures Shape() && Abs() == Sorted(old(Abs()), tsPacket)
    {
      hide Entries;
      var control := tsPacket[3] / 64;
      var offset := 0;
      if control != 0 {
        offset := PayloadOffset(tsPacket);
        if offset == 0 {
          control := 0;
        }
      }
      assert ScrambledWith(tsPacket) == if control == 2 then Some(Even) else if control == 3 then Some(Odd) else None;
      hide PayloadOffset, ScrambledWith;
      if control == 2 {
        scrambled := scrambled + 1;
        if caIdx != 0 && evenKey.Some? {
          HoldEven(offset);
        }
      } else if control == 3 {
        scrambled := scrambled + 1;
        if caIdx != 0 && oddKey.Some? {
          HoldOdd(offset);
        }
      } else {
        nscrambled := nscrambled + 1;
      }
    }

    /** Load a new even key if it is ready and the old one is no longer used. */
    method LoadEvenKey()
      requires Shape()
      modifies this`evenKey, this`evenCw
      ensures Shape() && Abs() == LoadEven(old(Abs()))
    {
      hide Entries;
      EntriesFull(evenBatch[..evenIdx]);
      EntriesFull(oddBatch[..oddIdx]);
      if (oddIdx != 0 && evenIdx == 0) || evenKey.None? {
        if evenCw.Some? {
          evenKey := evenCw;
          evenCw := None;
        }
      }
    }

    method LoadOddKey()
      requires Shape()
      modifies this`oddKey, this`oddCw
      ensures Shape() && Abs() == LoadOdd(old(Abs()))
    {
      hide Entries;
      EntriesFull(evenBatch[..evenIdx]);
      EntriesFull(oddBatch[..oddIdx]);
      if (evenIdx != 0 && oddIdx == 0) || oddKey.None? {
        if oddCw.Some? {
          oddKey := oddCw;
          oddCw := None;
        }
      }
    }

    method TakeNext()
      requires Valid() && Enabled(config, Abs(), Event.Take)
      modifies this`scrambled, this`nscrambled, this`evenIdx, this`oddIdx, this`decsaIdx, this`toDescramble,
        evenBatch, oddBatch
      ensures Shape() && Abs() == Collect(config, old(Abs()))
    {
      hide Entries, Inv, PayloadOffset, ScrambledWith, Sorted, Program;
      Room();
      Sort(data[decsaIdx]);
      decsaIdx := decsaIdx + 1;
      MaskWraps(decsaIdx, config.size);
      decsaIdx := And(decsaIdx, config.size - 1);
      toDescramble := toDescramble - 1;
    }

    method StartWork()
      requires Shape()
      modifies this`evenKey, this`oddKey, this`evenCw, this`oddCw, this`phase, evenBatch, oddBatch
      ensures Shape() && Abs() == LoadOdd(LoadEven(old(Abs()))).(phase := Working(0))
    {
      hide Entries, LoadEven, LoadOdd;
      Terminate();
      LoadEvenKey();
      LoadOddKey();
      phase := Working(0);
    }

    /** Take one packet, and start work on the batches when one of the counters is full. */
    method Take()
      requires Valid() && Enabled(config, Abs(), Event.Take)
      modifies this, evenBatch, oddBatch
      ensures Valid() && Abs() == Next(config, old(Abs()), Event.Take)
      ensures history == Record(config, old(Abs()), old(history), Event.Take)
    {
      hide Entries, Inv, Collect, LoadEven, LoadOdd, Program, Shaped, Record;
      ghost var s := Abs();
      TakeNext();
      if scrambled == config.batch || nscrambled == config.batch {
        StartWork();
      }
      Advance(Event.Take, s);
    }

    /** While packets are collected, neither batch is full. */
    lemma Room()
      requires Valid() && phase.Collecting?
      ensures evenIdx as nat < config.batch && oddIdx as nat < config.batch
    {
      EntriesFull(evenBatch[..evenIdx]);
      EntriesFull(oddBatch[..oddIdx]);
    }

    method Terminate()
      requires Shape()
      modifies evenBatch, oddBatch
      ensures Shape() && evenBatch[evenIdx].None? && oddBatch[oddIdx].None? && Abs() == old(Abs())
    {
      hide Entries;
      evenBatch[evenIdx] := None;
      oddBatch[oddIdx] := None;
      assert evenBatch[..evenIdx] == old(evenBatch[..evenIdx]);
      assert oddBatch[..oddIdx] == old(oddBatch[..oddIdx]);
    }

    // ---------- the unlocked work ----------

    ghost function Batch(parity: Parity): (held: seq<Held>)
      requires Shape()
      reads this, evenBatch, oddBatch
    {
      Entries(if parity.Even? then evenBatch[..evenIdx] else oddBatch[..oddIdx])
    }

    /** Position number i of a stage over a batch in the program. */
    ghost function Position(stage: Stage, parity: Parity, i: nat): nat
      requires Shape()
      reads this, evenBatch, oddBatch
    {
      (if parity.Even? then 0 else 2 * evenIdx as nat) + (if stage.Decrypt? then 0 else |Batch(parity)|) + i
    }

    lemma AtPosition(stage: Stage, parity: Parity, i: nat)
      requires Valid() && phase.Working? && i < |Batch(parity)|
      ensures Position(stage, parity, i) < |Program(Abs())|
      ensures Program(Abs())[Position(stage, parity, i)] == Op(stage, parity, Batch(parity)[i])
      ensures Batch(parity)[i].slot < data.Length && (if parity.Even? then evenKey else oddKey).Some?
    {
      hide Entries, Inv, Program;
      EntriesFull(evenBatch[..evenIdx]);
      InvIsShaped(config, Abs(), history);
      HeldHasKey(config, Abs(), history, parity);
      ProgramAt(Abs(), stage, parity, i);
    }

    /** Decrypt or clear the i-th packet of a batch. */
    method WorkOne(stage: Stage, parity: Parity, i: nat, held: Held)
      requires Valid() && i < |Batch(parity)| && held == Batch(parity)[i]
        && phase == Working(Position(stage, parity, i))
      modifies data, this`phase, this`history
      ensures Valid() && phase == Working(Position(stage, parity, i + 1)) && history == old(history)
      ensures Enabled(config, old(Abs()), Event.Work) && Abs() == Next(config, old(Abs()), Event.Work)
    {
      hide Entries, Inv, Program;
      ghost var s := Abs();
      InvIsShaped(config, s, history);
      AtPosition(stage, parity, i);
      var slot := held.slot;
      if stage.Clear? {
        data[slot] := ClearControl(data[slot]);
      } else if parity.Even? {
        data[slot] := DecryptPayload(config.decrypt, evenKey.value, data[slot], held.offset);
      } else {
        data[slot] := DecryptPayload(config.decrypt, oddKey.value, data[slot], held.offset);
      }
      phase := Working(phase.done + 1);
      Advance(Event.Work, s);
    }

    /** The library call: decrypt a batch up to its terminator. */
    method DecryptPayloads(parity: Parity)
      requires Valid() && phase == Working(Position(Decrypt, parity, 0))
      modifies data, this`phase, this`history
      ensures Valid() && phase == Working(Position(Clear, parity, 0)) && history == old(history)
      ensures Abs() == WorkFor(config, old(Abs()), |Batch(parity)|)
    {
      hide Entries, Inv, Program, Next, Enabled;
      var batch := if parity.Even? then evenBatch else oddBatch;
      ghost var count := if parity.Even? then evenIdx else oddIdx;
      EntriesFull(batch[..count]);
      var i: nat := 0;
      while batch[i].Some?
        invariant Valid() && i <= count as nat
        invariant phase == Working(Position(Decrypt, parity, i)) && history == old(history)
        invariant Abs() == WorkFor(config, old(Abs()), i)
        decreases count as nat - i
      {
        WorkOne(Decrypt, parity, i, batch[i].value);
        i := i + 1;
      }
    }

    /** Mark the packets of a batch as no longer scrambled. */
    method ClearFields(parity: Parity)
      requires Valid() && phase == Working(Position(Clear, parity, 0))
      modifies data, this`phase, this`history
      ensures Valid() && phase == Working(Position(Clear, parity, |Batch(parity)|)) && history == old(history)
      ensures Abs() == WorkFor(config, old(Abs()), |Batch(parity)|)
    {
      hide Entries, Inv, Program, Next, Enabled;
      var batch := if parity.Even? then evenBatch else oddBatch;
      var count := if parity.Even? then evenIdx else oddIdx;
      EntriesFull(batch[..count]);
      var i: nat := 0;
      while i < count as nat
        invariant Valid() && i <= count as nat
        invariant phase == Working(Position(Clear, parity, i)) && history == old(history)
        invariant Abs() == WorkFor(config, old(Abs()), i)
      {
        WorkOne(Clear, parity, i, batch[i].value);
        i := i + 1;
      }
    }

    method DecryptBatch(parity: Parity)
      requires Valid() && phase == Working(Position(Decrypt, parity, 0))
      modifies data, this`phase, this`history
      ensures Valid() && phase == Working(Position(Clear, parity, |Batch(parity)|)) && history == old(history)
      ensures Abs() == WorkFor(config, old(Abs()), 2 * |Batch(parity)|)
    {
      hide Entries, Inv, Program, Next, Enabled;
      ghost var s, n := Abs(), |Batch(parity)|;
      DecryptPayloads(parity);
      ClearFields(parity);
      WorkForAdd(config, s, n, n);
    }

    /** The work between the two critical sections, when no other thread moves meanwhile. */
    method Descramble()
      requires Valid() && phase == Working(0)
      modifies data, this`phase, this`history
      ensures Valid() && phase == Working(|Program(Abs())|) && history == old(history)
      ensures Abs() == WorkFor(config, old(Abs()), |Program(Abs())|)
    {
      hide Entries, Inv, Next, Enabled;
      EntriesFull(evenBatch[..evenIdx]);
      EntriesFull(oddBatch[..oddIdx]);
      ghost var s := Abs();
      if evenIdx != 0 {
        DecryptBatch(Even);
      }
      ghost var t := Abs();
      if oddIdx != 0 {
        DecryptBatch(Odd);
      }
      WorkForAdd(config, s, 2 * evenIdx as nat, 2 * oddIdx as nat);
    }

    method EmptyBatches()
      requires Shape()
      modifies this`evenIdx, this`oddIdx, this`phase
      ensures Shape() && Abs() == old(Abs()).(even := [], odd := [], phase := Collecting)
    {
      evenIdx, oddIdx := 0, 0;
      phase := Collecting;
      assert evenBatch[..evenIdx] == [] && oddBatch[..oddIdx] == [];
    }

    /** The descrambler's second critical section. */
    method Release()
      requires Valid() && Enabled(config, Abs(), Event.Release)
      modifies this`evenIdx, this`oddIdx, this`toSend, this`scrambled, this`nscrambled, this`caIdx, this`phase,
        this`history
      ensures Valid() && Abs() == Next(config, old(Abs()), Event.Release)
      ensures history == old(history).(released := |old(history).uses|)
    {
      ghost var s := Abs();
      ReleaseIs(config, s);
      hide Inv, Program, Entries, Shaped, Next, Enabled, Channel.Abs;
      EmptyBatches();
      HandOver();
      Advance(Event.Release, s);
    }

    /** What was taken is to be sent. */
    method HandOver()
      requires Shape()
      modifies this`toSend, this`scrambled, this`nscrambled, this`caIdx
      ensures Shape()
      ensures var s := old(Abs());
        Abs() == s.(toSend := s.toSend + s.scrambled + s.nscrambled, scrambled := 0, nscrambled := 0,
                    caIdx := s.channelCa)
    {
      hide Entries;
      toSend := toSend + scrambled + nscrambled;
      nscrambled, scrambled := 0, 0;
      caIdx := channelCa;
    }

    /** A control word arrives. */
    method SetCw(parity: Parity, cw: Key)
      requires Valid()
      modifies this`evenCw, this`oddCw, this`history
      ensures Valid() && Enabled(config, old(Abs()), NewKey(parity, cw))
      ensures Abs() == Next(config, old(Abs()), NewKey(parity, cw)) && history == old(history)
    {
      hide Inv, Program, Entries;
      ghost var s := Abs();
      InvIsShaped(config, s, history);
      if parity.Even? {
        evenCw := Some(cw);
      } else {
        oddCw := Some(cw);
      }
      Advance(NewKey(parity, cw), s);
    }

    method SetCa(index: nat)
      requires Valid()
      modifies this`channelCa, this`history
      ensures Valid() && Enabled(config, old(Abs()), NewCa(index))
      ensures Abs() == Next(config, old(Abs()), NewCa(index)) && history == old(history)
    {
      hide Inv, Program, Entries;
      ghost var s := Abs();
      InvIsShaped(config, s, history);
      channelCa := index;
      Advance(NewCa(index), s);
    }
  }
}

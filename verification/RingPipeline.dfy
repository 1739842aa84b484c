/** The promises of the descrambling pipeline, read off its invariant. */
module RingPipeline {
  import opened Bytes
  import opened Sections
  import opened Ring
  import opened RingSafety

  // ---------- order ----------

  /** The packets the producer wrote, in order. */
  function Written(events: seq<Event>): seq<Packet>
  {
    if events == [] then []
    else
      var e := events[|events| - 1];
      Written(events[..|events| - 1]) + if e.Write? then [e.packet] else []
  }

  lemma {:induction false} WrittenRecorded(c: Config, s0: State, events: seq<Event>)
    requires After(c, s0, events).Some?
    ensures After(c, s0, events).value.history.written == Written(events)
    decreases |events|
  {
    hide Enabled, Next;
    if events != [] {
      WrittenRecorded(c, s0, events[..|events| - 1]);
    }
  }

  /**
   The k-th packet sent is the k-th packet written, decrypted once with the key it was batched
   under or untouched; it was released by the descrambler first; none is lost or duplicated.
   */
  lemma FirstInFirstOut(c: Config, s0: State, events: seq<Event>)
    requires Starts(c, s0) && After(c, s0, events).Some?
    ensures var h := After(c, s0, events).value.history;
      && |h.sent| <= h.released <= |h.uses| <= |Written(events)| <= |h.sent| + c.size
      && forall k :: 0 <= k < |h.sent| ==> h.sent[k] == Final(c, Written(events)[k], h.uses[k])
  {
    WrittenRecorded(c, s0, events);
    RunKeeps(c, s0, events);
  }

  /** Nothing but the guards of the threads' own loops, and room for the producer, ever stops a step. */
  lemma EnabledExactlyWhen(c: Config, s: State, h: History, e: Event)
    requires Inv(c, s, h)
    ensures Enabled(c, s, e) <==>
      match e
      case Write(_) => Outstanding(s) < c.size
      case NewKey(_, _) => true
      case NewCa(_) => true
      case Take => s.phase.Collecting? && s.toDescramble > 0
      case Work => s.phase.Working? && s.phase.done < |Program(s)|
      case Release => s.phase.Working? && s.phase.done == |Program(s)|
      case Send => s.toSend > 0
  {
    InvIsShaped(c, s, h);
  }

  // ---------- disjoint slots ----------

  /** Slots the descrambler may touch while it does not hold the lock. */
  ghost function PrivateSlots(s: State): set<nat>
  {
    set op <- Program(s) :: op.held.slot
  }

  /** The three threads never meet in a slot; the producer's slot is free exactly when there is room. */
  lemma DisjointSlots(c: Config, s: State, h: History)
    requires Inv(c, s, h)
    ensures Outstanding(s) < c.size ==> s.writeIdx !in PrivateSlots(s)
    ensures s.toSend > 0 ==> s.sendIdx !in PrivateSlots(s)
    ensures s.toDescramble > 0 ==> s.decsaIdx !in PrivateSlots(s)
    ensures s.toSend > 0 ==> (s.writeIdx != s.sendIdx <==> Outstanding(s) < c.size)
    ensures s.toDescramble > 0 && Outstanding(s) < c.size ==> s.writeIdx != s.decsaIdx
    ensures s.toDescramble > 0 && s.toSend > 0 ==> s.decsaIdx != s.sendIdx
  {
    hide SlotAt, BatchOf, Program, Contents;
    var W, T, S := |h.written|, |h.uses|, |h.sent|;
    forall op | op in Program(s)
      ensures Outstanding(s) < c.size ==> s.writeIdx != op.held.slot
      ensures s.toSend > 0 ==> s.sendIdx != op.held.slot
      ensures s.toDescramble > 0 ==> s.decsaIdx != op.held.slot
    {
      var n: nat :| n < |Program(s)| && Program(s)[n] == op;
      var k := OpSlots(c, s, h, n);
      PositionsDiffer(k, W, c.size);
      PositionsDiffer(S, k, c.size);
      PositionsDiffer(k, T, c.size);
    }
    PositionsDiffer(S, W, c.size);
    PositionsDiffer(T, W, c.size);
    PositionsDiffer(S, T, c.size);
    FullCircle(S, c.size);
  }

  /**
   A write spares every packet not yet sent exactly when there is room; in a full ring it replaces
   the packet that is to be sent next.
   */
  lemma WriteSparesExactlyWhen(c: Config, s: State, h: History)
    requires Inv(c, s, h)
    ensures s.writeIdx < c.size
    ensures (forall k: nat :: |h.sent| <= k < |h.written| ==> SlotAt(k, c.size) != s.writeIdx)
       <==> Outstanding(s) < c.size
    ensures Outstanding(s) == c.size ==> |h.sent| < |h.written| && s.writeIdx == SlotAt(|h.sent|, c.size)
  {
    hide BatchOf, Program, Contents;
    forall k: nat | |h.sent| <= k < |h.written| && Outstanding(s) < c.size ensures SlotAt(k, c.size) != s.writeIdx {
      PositionsDiffer(k, |h.written|, c.size);
    }
    FullCircle(|h.sent|, c.size);
  }

  lemma PositionsDiffer(i: nat, j: nat, size: nat)
    requires size > 0
    ensures i < j < i + size ==> SlotAt(i, size) != SlotAt(j, size)
  {
    if i < j < i + size {
      SlotsDiffer(i, j, size);
    }
  }

  lemma FullCircle(k: nat, size: nat)
    requires size > 0
    ensures SlotAt(k + size, size) == SlotAt(k, size)
  {
  }

  /** The three indices are the totals written, taken and sent, modulo the ring's size. */
  lemma IndicesAreTotals(c: Config, s0: State, events: seq<Event>)
    requires Starts(c, s0) && After(c, s0, events).Some?
    ensures var r := After(c, s0, events).value;
      && r.state.writeIdx == |Written(events)| % c.size
      && r.state.decsaIdx == |r.history.uses| % c.size
      && r.state.sendIdx == |r.history.sent| % c.size
  {
    RunKeeps(c, s0, events);
    WrittenRecorded(c, s0, events);
    var r := After(c, s0, events).value;
    SlotIsModulo(|r.history.written|, c.size);
    SlotIsModulo(|r.history.uses|, c.size);
    SlotIsModulo(|r.history.sent|, c.size);
  }

  // ---------- waiting outside the lock ----------

  /**
   A thread that saw work, slept without the lock and locked again still has that work: no other
   thread's step takes it away, moves its index or changes the packet at it.
   */
  lemma SeenWorkStays(c: Config, s: State, h: History, e: Event)
    requires Inv(c, s, h) && Enabled(c, s, e)
    ensures s.toSend > 0 && !e.Send? ==>
      var t := Next(c, s, e);
      && t.toSend > 0 && t.sendIdx == s.sendIdx && t.sendIdx < c.size == |t.slots| && |s.slots| == c.size
      && t.slots[s.sendIdx] == s.slots[s.sendIdx]
    ensures s.toDescramble > 0 && !e.Take? ==>
      var t := Next(c, s, e);
      && t.toDescramble > 0 && t.decsaIdx == s.decsaIdx && t.decsaIdx < c.size == |t.slots| && |s.slots| == c.size
      && t.slots[s.decsaIdx] == s.slots[s.decsaIdx]
  {
    hide SlotAt, BatchOf, Program, Contents, Apply, LoadEven, LoadOdd;
    DisjointSlots(c, s, h);
    if e.Work? {
      assert Program(s)[s.phase.done] in Program(s);
    } else if e.Take? {
      LoadsKeepRing(Collect(c, s));
      LoadsKeepRing(LoadEven(Collect(c, s)));
    }
  }

  lemma LoadsKeepRing(s: State)
    ensures LoadEven(s).slots == LoadOdd(s).slots == s.slots
    ensures LoadEven(s).sendIdx == LoadOdd(s).sendIdx == s.sendIdx
    ensures LoadEven(s).toSend == LoadOdd(s).toSend == s.toSend
  {
  }

  // ---------- keys and batches ----------

  /** A loaded key changes only when a batch is full and none of the key's own packets is held. */
  lemma KeyReplaced(c: Config, s: State, h: History, e: Event, parity: Parity)
    requires Inv(c, s, h) && Enabled(c, s, e)
    requires Next(c, s, e).keys.Of(parity) != s.keys.Of(parity)
    ensures e.Take? && Next(c, s, e).phase == Working(0) && Next(c, s, e).Of(parity) == []
    ensures Next(c, s, e).keys.Of(parity) == s.pending.Of(parity)
  {
    if e.Take? {
      CollectKeeps(c, s, h);
      var t, h2 := Collect(c, s), Record(c, s, h, e);
      hide Inv, Consistent, Record, Sorted;
      if t.keys.Of(parity).None? {
        NothingHeldWithoutKey(c, t, h2, parity);
      }
    } else {
      hide Inv, Record;
    }
  }

  lemma NothingHeldWithoutKey(c: Config, s: State, h: History, parity: Parity)
    requires Consistent(c, s, h) && s.keys.Of(parity).None?
    ensures s.Of(parity) == []
  {
    hide SlotAt, Contents;
    if s.Of(parity) != [] {
      var k := BatchSlots(h, parity, h.released, |h.uses|, c.size, 0);
    }
  }

  /**
   A taken packet is batched exactly when it is scrambled for a parity whose key is loaded and a CA
   index is set; it then stays in that parity's batch, at its slot and payload, until the release.
   */
  lemma BatchedExactlyWhen(c: Config, s: State, h: History, parity: Parity, key: Key)
    requires Inv(c, s, h) && Enabled(c, s, Take)
    ensures |h.uses| < |h.written|
    ensures var k, t, h2 := |h.uses|, Next(c, s, Take), Record(c, s, h, Take);
      && |h2.uses| == k + 1
      && (h2.uses[k] == Some(Use(parity, key)) <==>
            ScrambledWith(h.written[k]) == Some(parity) && s.keys.Of(parity) == Some(key) && s.caIdx != 0)
      && (h2.uses[k] == Some(Use(parity, key)) ==>
            Held(SlotAt(k, c.size), PayloadOffset(h.written[k])) in t.Of(parity))
  {
    hide ScrambledWith, PayloadOffset, SlotAt;
    assert InPlace(c, s, h, |h.uses|);
    LoadsKeepBatches(Collect(c, s));
    LoadsKeepBatches(LoadEven(Collect(c, s)));
  }

  lemma LoadsKeepBatches(s: State)
    ensures LoadEven(s).even == LoadOdd(s).even == s.even && LoadEven(s).odd == LoadOdd(s).odd == s.odd
  {
  }

  ghost predicate Delivered(s0: State, events: seq<Event>, parity: Parity, key: Key)
  {
    s0.pending.Of(parity) == Some(key) || exists i: nat :: i < |events| && events[i] == NewKey(parity, key)
  }

  ghost predicate KeyDelivered(s0: State, events: seq<Event>, parity: Parity, key: Option<Key>)
  {
    key.Some? ==> Delivered(s0, events, parity, key.value)
  }

  /** The packet was scrambled for the parity it was batched under, with a key delivered for that parity. */
  ghost predicate Explained(s0: State, events: seq<Event>, p: Packet, use: Option<Use>)
  {
    use.Some? ==> ScrambledWith(p) == Some(use.value.parity) && Delivered(s0, events, use.value.parity, use.value.key)
  }

  lemma DeliveredStays(s0: State, events: seq<Event>, e: Event)
    ensures forall parity, key :: Delivered(s0, events, parity, key) ==> Delivered(s0, events + [e], parity, key)
  {
    forall parity, key | Delivered(s0, events, parity, key) ensures Delivered(s0, events + [e], parity, key) {
      if i: nat :| i < |events| && events[i] == NewKey(parity, key) {
        assert (events + [e])[i] == NewKey(parity, key);
      }
    }
  }

  /** A step only moves waiting keys into use, or lets a new one wait. */
  lemma KeysMove(c: Config, s: State, e: Event, parity: Parity)
    requires Enabled(c, s, e)
    ensures var t := Next(c, s, e);
      && (t.keys.Of(parity) == s.keys.Of(parity) || t.keys.Of(parity) == s.pending.Of(parity))
      && (t.pending.Of(parity) == s.pending.Of(parity) || t.pending.Of(parity).None?
          || e == NewKey(parity, t.pending.Of(parity).value))
  {
    hide Program, Apply, ScrambledWith;
  }

  lemma {:induction false} KeysExplained(c: Config, s0: State, events: seq<Event>, parity: Parity)
    requires Starts(c, s0) && After(c, s0, events).Some?
    ensures var s := After(c, s0, events).value.state;
      KeyDelivered(s0, events, parity, s.keys.Of(parity)) && KeyDelivered(s0, events, parity, s.pending.Of(parity))
    decreases |events|
  {
    hide Next, Enabled, Delivered;
    if events == [] {
      DeliveredAtStart(s0, parity);
    } else {
      var past, e := events[..|events| - 1], events[|events| - 1];
      assert events == past + [e];
      KeysExplained(c, s0, past, parity);
      KeysMove(c, After(c, s0, past).value.state, e, parity);
      DeliveredStays(s0, past, e);
      if e.NewKey? {
        DeliveredNow(s0, past, e.parity, e.key);
      }
    }
  }

  /** Packets are batched for the parity they are scrambled for, with a key delivered for it. */
  lemma {:induction false} UsesExplained(c: Config, s0: State, events: seq<Event>)
    requires Starts(c, s0) && After(c, s0, events).Some?
    ensures var h := After(c, s0, events).value.history;
      |h.uses| <= |h.written| && forall k :: 0 <= k < |h.uses| ==> Explained(s0, events, h.written[k], h.uses[k])
    decreases |events|
  {
    hide ScrambledWith, Next, Program, Delivered, SlotAt, BatchOf;
    if events != [] {
      var past, e := events[..|events| - 1], events[|events| - 1];
      assert events == past + [e];
      UsesExplained(c, s0, past);
      RunKeeps(c, s0, past);
      DeliveredStays(s0, past, e);
      var r := After(c, s0, past).value;
      if e.Take? {
        assert InPlace(c, r.state, r.history, |r.history.uses|);
        KeysExplained(c, s0, past, Even);
        KeysExplained(c, s0, past, Odd);
      }
    }
  }

  lemma DeliveredAtStart(s0: State, parity: Parity)
    ensures KeyDelivered(s0, [], parity, s0.pending.Of(parity))
  {
  }

  lemma DeliveredNow(s0: State, events: seq<Event>, parity: Parity, key: Key)
    ensures Delivered(s0, events + [NewKey(parity, key)], parity, key)
  {
    assert (events + [NewKey(parity, key)])[|events|] == NewKey(parity, key);
  }

  /** Each batch leaves room for its terminator in an array of batch + 1 entries. */
  lemma BatchesFit(c: Config, s0: State, events: seq<Event>)
    requires Starts(c, s0) && After(c, s0, events).Some?
    ensures var s := After(c, s0, events).value.state;
      |s.even| + |s.odd| <= s.scrambled <= c.batch && s.nscrambled <= c.batch
  {
    RunKeeps(c, s0, events);
  }

  // ---------- the ring can only stall when it is too small ----------

  /** The ring is full and neither the descrambler nor the sender can move. */
  predicate Stalled(c: Config, s: State)
  {
    && Outstanding(s) >= c.size
    && !Enabled(c, s, Take) && !Enabled(c, s, Work) && !Enabled(c, s, Release) && !Enabled(c, s, Send)
  }

  ghost predicate CanStall(c: Config)
  {
    exists s0: State, events: seq<Event> :: Starts(c, s0) && After(c, s0, events).Some?
      && Stalled(c, After(c, s0, events).value.state)
  }

  lemma StallsOnlyWhenSmall(c: Config, s: State, h: History)
    requires Inv(c, s, h) && Stalled(c, s)
    ensures c.size <= 2 * c.batch - 2
  {
    InvIsShaped(c, s, h);
  }

  /** A packet scrambled for the even key, and one in the clear. */
  function Sample(scrambled: bool): (p: Packet)
    ensures ScrambledWith(p) == if scrambled then Some(Even) else None
  {
    var p := [0x47, 0, 0, if scrambled then 0x90 else 0x10] + Repeat(0, 184);
    assert p[3] == if scrambled then 0x90 else 0x10;
    p
  }

  /** n packets written and taken one by one, none of them completing a batch. */
  lemma {:induction false} HoldPackets(c: Config, s0: State, n: nat) returns (events: seq<Event>)
    requires Starts(c, s0) && n <= c.size && n <= 2 * c.batch - 2
    ensures After(c, s0, events).Some?
    ensures var s := After(c, s0, events).value.state;
      && s.scrambled + s.nscrambled == n && s.scrambled < c.batch && s.nscrambled < c.batch
      && s.toSend == 0 && s.toDescramble == 0 && s.phase.Collecting?
  {
    hide SlotAt, BatchOf, Contents, ScrambledWith;
    if n == 0 {
      events := [];
    } else {
      var before := HoldPackets(c, s0, n - 1);
      RunKeeps(c, s0, before);
      var r := After(c, s0, before).value;
      var p := Sample(r.state.scrambled < c.batch - 1);
      InvIsShaped(c, r.state, r.history);
      var s1, h1 := Next(c, r.state, Write(p)), Record(c, r.state, r.history, Write(p));
      assert s1.slots[s1.decsaIdx] == p;
      StepKeeps(c, r.state, r.history, Write(p));
      InvIsShaped(c, s1, h1);
      events := before + [Write(p)] + [Take];
      assert (before + [Write(p)])[..|before|] == before;
      assert After(c, s0, before + [Write(p)]) == Some(Run(s1, h1));
      assert events[..|before| + 1] == before + [Write(p)];
    }
  }

  /** A full ring with everything held back in half-full batches is possible exactly below 2 * batch - 1 slots. */
  lemma StallExactlyWhen(c: Config)
    requires c.size > 0 && c.batch > 0
    ensures CanStall(c) <==> c.size <= 2 * c.batch - 2
  {
    if CanStall(c) {
      StallNeedsSmall(c);
    }
    if c.size <= 2 * c.batch - 2 {
      SmallStalls(c);
    }
  }

  lemma StallNeedsSmall(c: Config)
    requires c.size > 0 && c.batch > 0 && CanStall(c)
    ensures c.size <= 2 * c.batch - 2
  {
    hide Starts, After, Stalled, Inv;
    var s0, events :| Starts(c, s0) && After(c, s0, events).Some? && Stalled(c, After(c, s0, events).value.state);
    RunKeeps(c, s0, events);
    StallsOnlyWhenSmall(c, After(c, s0, events).value.state, After(c, s0, events).value.history);
  }

  lemma EmptyStarts(c: Config, slots: seq<Packet>)
    requires |slots| == c.size > 0 && c.batch > 0
    ensures Starts(c, Initial(c, slots, Keys(None, None), 0))
  {
  }

  lemma HeldStalls(c: Config, s: State)
    requires s.scrambled + s.nscrambled == c.size && s.scrambled < c.batch && s.nscrambled < c.batch
    requires s.toSend == 0 && s.toDescramble == 0 && s.phase.Collecting?
    ensures Stalled(c, s)
  {
    hide Program, Shaped;
  }

  lemma SmallStalls(c: Config)
    requires c.batch > 0 && 0 < c.size <= 2 * c.batch - 2
    ensures CanStall(c)
  {
    hide Starts, After, Stalled, Initial;
    var slots := Repeat(Sample(false), c.size);
    var s0 := Initial(c, slots, Keys(None, None), 0);
    EmptyStarts(c, slots);
    var events := HoldPackets(c, s0, c.size);
    HeldStalls(c, After(c, s0, events).value.state);
  }
}

/** What every interleaving of the three threads keeps. */
module RingSafety {
  import opened Bytes
  import opened Sections
  import opened Ring

  // ---------- positions and slots ----------

  /** The slot of the k-th packet ever written: k modulo the ring's size. */
  function SlotAt(k: nat, size: nat): (i: nat)
    requires size > 0
    ensures i < size
  {
    if k < size then k else SlotAt(k - size, size)
  }

  lemma {:induction false} SlotNext(k: nat, size: nat)
    requires size > 0
    ensures SlotAt(k + 1, size) == Wrap(SlotAt(k, size) + 1, size)
  {
    if k >= size {
      SlotNext(k - size, size);
    }
  }

  lemma {:induction false} SlotsDiffer(i: nat, j: nat, size: nat)
    requires size > 0 && i < j < i + size
    ensures SlotAt(i, size) != SlotAt(j, size)
  {
    if size <= i {
      SlotsDiffer(i - size, j - size, size);
    }
  }

  lemma {:induction false} SlotIsModulo(k: nat, size: nat)
    requires size > 0
    ensures SlotAt(k, size) == k % size
  {
    if size <= k {
      SlotIsModulo(k - size, size);
      assert k % size == (k - size) % size by { ModuloStep(k - size, size); }
    }
  }

  lemma ModuloStep(k: nat, size: nat)
    requires size > 0
    ensures (k + size) % size == k % size
  {
    var d := (k + size) / size - k / size - 1;
    var e := (k + size) % size - k % size;
    assert d * size + e == 0 by {
      assert ((k + size) / size) * size + (k + size) % size == k + size;
      assert (k / size) * size + k % size == k;
    }
    Multiples(d, size);
  }

  lemma Multiples(d: int, size: nat)
    ensures d >= 1 ==> d * size >= size
    ensures d <= -1 ==> d * size + size <= 0
  {
    if d >= 1 {
      assert (d - 1) * size >= 0;
    } else if d <= -1 {
      assert (-d - 1) * size >= 0;
    }
  }

  // ---------- the batches, from the history ----------

  /** The packets number from .. until that were batched for one parity. */
  function BatchOf(h: History, parity: Parity, from: nat, until: nat, size: nat): seq<Held>
    requires until <= |h.uses| && until <= |h.written| && size > 0
    decreases until
  {
    if until <= from then []
    else
      var before := BatchOf(h, parity, from, until - 1, size);
      if UsedFor(h, until - 1, parity)
      then before + [Held(SlotAt(until - 1, size), PayloadOffset(h.written[until - 1]))]
      else before
  }

  predicate UsedFor(h: History, k: nat, parity: Parity)
    requires k < |h.uses|
  {
    h.uses[k].Some? && h.uses[k].value.parity == parity
  }

  // ---------- the effect of the unlocked work on one slot ----------

  /** What the operations make of the packet p in a slot. */
  function ApplyAll(c: Config, keys: Keys, ops: seq<Op>, slot: nat, p: Packet): Packet
    decreases |ops|
  {
    if ops == [] then p
    else ApplyAll(c, keys, ops[1..], slot, if ops[0].held.slot == slot then Apply(c, keys, ops[0], p) else p)
  }

  lemma {:induction false} ApplyAppend(c: Config, keys: Keys, a: seq<Op>, b: seq<Op>, slot: nat, p: Packet)
    ensures ApplyAll(c, keys, a + b, slot, p) == ApplyAll(c, keys, b, slot, ApplyAll(c, keys, a, slot, p))
    decreases |a|
  {
    if a == [] {
      assert a + b == b;
    } else {
      assert (a + b)[1..] == a[1..] + b;
      ApplyAppend(c, keys, a[1..], b, slot, if a[0].held.slot == slot then Apply(c, keys, a[0], p) else p);
    }
  }

  lemma ApplyOne(c: Config, keys: Keys, op: Op, slot: nat, p: Packet)
    ensures ApplyAll(c, keys, [op], slot, p) == if op.held.slot == slot then Apply(c, keys, op, p) else p
  {
    var q := if op.held.slot == slot then Apply(c, keys, op, p) else p;
    assert ApplyAll(c, keys, [], slot, q) == q;
  }

  predicate Within(h: History, from: nat, until: nat, size: nat)
  {
    from <= until <= |h.uses| <= |h.written| && until <= from + size && size > 0
  }

  /** One stage over one batch: the batch's packets get it once, the others not at all. */
  lemma {:induction false} StageOverBatch(c: Config, keys: Keys, h: History, stage: Stage, parity: Parity,
                                          from: nat, until: nat, k: nat, p: Packet)
    requires Within(h, from, until, c.size) && from <= k < from + c.size && k < |h.uses|
    ensures ApplyAll(c, keys, Ops(stage, parity, BatchOf(h, parity, from, until, c.size)), SlotAt(k, c.size), p)
         == if k < until && UsedFor(h, k, parity)
            then Apply(c, keys, Op(stage, parity, Held(SlotAt(k, c.size), PayloadOffset(h.written[k]))), p)
            else p
    decreases until
  {
    hide Apply, SlotAt, PayloadOffset;
    if from < until {
      StageOverBatch(c, keys, h, stage, parity, from, until - 1, k, p);
      if UsedFor(h, until - 1, parity) {
        var before := BatchOf(h, parity, from, until - 1, c.size);
        var held := Held(SlotAt(until - 1, c.size), PayloadOffset(h.written[until - 1]));
        assert Ops(stage, parity, before + [held]) == Ops(stage, parity, before) + [Op(stage, parity, held)];
        var q := ApplyAll(c, keys, Ops(stage, parity, before), SlotAt(k, c.size), p);
        ApplyAppend(c, keys, Ops(stage, parity, before), [Op(stage, parity, held)], SlotAt(k, c.size), p);
        ApplyOne(c, keys, Op(stage, parity, held), SlotAt(k, c.size), q);
        if k < until - 1 {
          SlotsDiffer(k, until - 1, c.size);
        } else if until - 1 < k {
          SlotsDiffer(until - 1, k, c.size);
        }
      }
    }
  }

  /** The whole program turns every batched packet into its final form and leaves the others. */
  lemma ProgramFinishes(c: Config, s: State, h: History, from: nat, until: nat, k: nat)
    requires Within(h, from, until, c.size) && from <= k < until
    requires s.even == BatchOf(h, Even, from, until, c.size) && s.odd == BatchOf(h, Odd, from, until, c.size)
    requires KeysHeld(s, h, from)
    ensures ApplyAll(c, s.keys, Program(s), SlotAt(k, c.size), h.written[k]) == Final(c, h.written[k], h.uses[k])
  {
    hide SlotAt, PayloadOffset, ApplyAll, BatchOf, Ops, ClearControl, DecryptPayload;
    var slot, p0 := SlotAt(k, c.size), h.written[k];
    var p1 := ApplyAll(c, s.keys, Ops(Decrypt, Even, s.even), slot, p0);
    var p2 := ApplyAll(c, s.keys, Ops(Clear, Even, s.even), slot, p1);
    var p3 := ApplyAll(c, s.keys, Ops(Decrypt, Odd, s.odd), slot, p2);
    StageOverBatch(c, s.keys, h, Decrypt, Even, from, until, k, p0);
    StageOverBatch(c, s.keys, h, Clear, Even, from, until, k, p1);
    StageOverBatch(c, s.keys, h, Decrypt, Odd, from, until, k, p2);
    StageOverBatch(c, s.keys, h, Clear, Odd, from, until, k, p3);
    ApplyAppend(c, s.keys, Ops(Decrypt, Even, s.even), Ops(Clear, Even, s.even), slot, p0);
    ApplyAppend(c, s.keys, Ops(Decrypt, Even, s.even) + Ops(Clear, Even, s.even), Ops(Decrypt, Odd, s.odd), slot, p0);
    ApplyAppend(c, s.keys, Ops(Decrypt, Even, s.even) + Ops(Clear, Even, s.even) + Ops(Decrypt, Odd, s.odd),
                Ops(Clear, Odd, s.odd), slot, p0);
  }

  // ---------- the invariant ----------

  /** Every packet held was batched under the key that is loaded now. */
  ghost predicate KeysHeld(s: State, h: History, from: nat)
  {
    forall k :: from <= k < |h.uses| && h.uses[k].Some? ==>
      s.keys.Of(h.uses[k].value.parity) == Some(h.uses[k].value.key)
  }

  predicate Counts(c: Config, s: State, h: History)
  {
    && |h.sent| <= h.released <= |h.uses| <= |h.written| <= |h.sent| + c.size
    && c.size > 0 && c.batch > 0
    && s.writeIdx == SlotAt(|h.written|, c.size)
    && s.decsaIdx == SlotAt(|h.uses|, c.size)
    && s.sendIdx == SlotAt(|h.sent|, c.size)
    && s.toDescramble == |h.written| - |h.uses|
    && s.scrambled + s.nscrambled == |h.uses| - h.released
    && s.toSend == h.released - |h.sent|
    && |s.slots| == c.size
  }

  predicate Batches(c: Config, s: State, h: History)
    requires Counts(c, s, h)
  {
    && s.even == BatchOf(h, Even, h.released, |h.uses|, c.size)
    && s.odd == BatchOf(h, Odd, h.released, |h.uses|, c.size)
    && |s.even| + |s.odd| <= s.scrambled <= c.batch
    && s.nscrambled <= c.batch
    && (s.phase.Working? ==> s.phase.done <= |Program(s)|)
  }

  /** What the work still to be done will make of slot i. */
  function Finished(c: Config, s: State, i: nat): Packet
    requires i < |s.slots| && s.phase.Working? && s.phase.done <= |Program(s)|
  {
    ApplyAll(c, s.keys, Program(s)[s.phase.done..], i, s.slots[i])
  }

  /** The k-th packet written, not yet sent, is in its slot, at the stage its position implies. */
  ghost predicate InPlace(c: Config, s: State, h: History, k: nat)
    requires Counts(c, s, h) && Batches(c, s, h)
    requires |h.sent| <= k < |h.written|
  {
    if k < h.released then s.slots[SlotAt(k, c.size)] == Final(c, h.written[k], h.uses[k])
    else if k < |h.uses| && s.phase.Working? then Finished(c, s, SlotAt(k, c.size)) == Final(c, h.written[k], h.uses[k])
    else s.slots[SlotAt(k, c.size)] == h.written[k]
  }

  ghost predicate Contents(c: Config, s: State, h: History)
    requires Counts(c, s, h) && Batches(c, s, h)
  {
    && (forall k :: |h.sent| <= k < |h.written| ==> InPlace(c, s, h, k))
    && (forall k :: 0 <= k < |h.sent| ==> h.sent[k] == Final(c, h.written[k], h.uses[k]))
  }

  /** All of the invariant but that a full batch is being worked on. */
  ghost predicate Consistent(c: Config, s: State, h: History)
  {
    Counts(c, s, h) && Batches(c, s, h) && KeysHeld(s, h, h.released) && Contents(c, s, h)
  }

  ghost predicate Inv(c: Config, s: State, h: History)
  {
    Consistent(c, s, h) && (s.phase.Collecting? ==> s.scrambled < c.batch && s.nscrambled < c.batch)
  }

  // ---------- each event keeps it ----------

  predicate SameUntil(h: History, h2: History, until: nat)
  {
    && until <= |h.uses| && until <= |h.written| && until <= |h2.uses| && until <= |h2.written|
    && h.uses[..until] == h2.uses[..until] && h.written[..until] == h2.written[..until]
  }

  lemma {:induction false} BatchStable(h: History, h2: History, parity: Parity, from: nat, until: nat, size: nat)
    requires SameUntil(h, h2, until) && size > 0
    ensures BatchOf(h, parity, from, until, size) == BatchOf(h2, parity, from, until, size)
    decreases until
  {
    hide SlotAt, PayloadOffset;
    if from < until {
      assert h.uses[until - 1] == h.uses[..until][until - 1] == h2.uses[until - 1];
      assert h.written[until - 1] == h.written[..until][until - 1] == h2.written[until - 1];
      assert h.uses[..until - 1] == h.uses[..until][..until - 1] == h2.uses[..until - 1];
      assert h.written[..until - 1] == h.written[..until][..until - 1] == h2.written[..until - 1];
      BatchStable(h, h2, parity, from, until - 1, size);
    }
  }

  /** A batch only names slots of packets in its range. */
  lemma {:induction false} BatchSlots(h: History, parity: Parity, from: nat, until: nat, size: nat, i: nat)
    returns (k: nat)
    requires until <= |h.uses| && until <= |h.written| && size > 0
    requires i < |BatchOf(h, parity, from, until, size)|
    ensures from <= k < until
      && BatchOf(h, parity, from, until, size)[i] == Held(SlotAt(k, size), PayloadOffset(h.written[k]))
    ensures UsedFor(h, k, parity)
    decreases until
  {
    hide SlotAt, PayloadOffset;
    if i < |BatchOf(h, parity, from, until - 1, size)| {
      k := BatchSlots(h, parity, from, until - 1, size, i);
    } else {
      k := until - 1;
    }
  }

  lemma OpSlots(c: Config, s: State, h: History, n: nat) returns (k: nat)
    requires Counts(c, s, h) && Batches(c, s, h) && n < |Program(s)|
    ensures h.released <= k < |h.uses| && Program(s)[n].held.slot == SlotAt(k, c.size)
  {
    hide SlotAt, PayloadOffset;
    var e, o := |s.even|, |s.odd|;
    if n < 2 * e {
      k := BatchSlots(h, Even, h.released, |h.uses|, c.size, if n < e then n else n - e);
    } else {
      k := BatchSlots(h, Odd, h.released, |h.uses|, c.size, if n < 2 * e + o then n - 2 * e else n - 2 * e - o);
    }
  }

  lemma InvIsShaped(c: Config, s: State, h: History)
    requires Inv(c, s, h)
    ensures Shaped(c, s)
  {
    hide SlotAt, BatchOf, Program;
    forall op | op in Program(s) ensures op.held.slot < c.size {
      var n: nat :| n < |Program(s)| && Program(s)[n] == op;
      var k := OpSlots(c, s, h, n);
    }
  }

  lemma SameProgram(s: State, s2: State)
    requires s.even == s2.even && s.odd == s2.odd
    ensures Program(s) == Program(s2)
  {
  }

  lemma InitialHolds(c: Config, slots: seq<Packet>, pending: Keys, channelCa: nat)
    requires c.size > 0 && c.batch > 0 && |slots| == c.size
    ensures Inv(c, Initial(c, slots, pending, channelCa), NOTHING)
  {
  }

  lemma WriteKeeps(c: Config, s: State, h: History, p: Packet)
    requires Inv(c, s, h) && Enabled(c, s, Write(p))
    ensures Inv(c, Next(c, s, Write(p)), Record(c, s, h, Write(p)))
  {
    hide SlotAt, BatchOf, Program, ApplyAll, Final, Shaped;
    var s2, h2 := Next(c, s, Write(p)), Record(c, s, h, Write(p));
    SlotNext(|h.written|, c.size);
    BatchStable(h, h2, Even, h.released, |h.uses|, c.size);
    BatchStable(h, h2, Odd, h.released, |h.uses|, c.size);
    SameProgram(s, s2);
    forall k | |h.sent| <= k < |h2.written| ensures InPlace(c, s2, h2, k) {
      if k < |h.written| {
        assert InPlace(c, s, h, k);
        SlotsDiffer(k, |h.written|, c.size);
      }
    }
  }

  lemma EnvironmentKeeps(c: Config, s: State, h: History, e: Event)
    requires Inv(c, s, h) && Enabled(c, s, e) && (e.NewKey? || e.NewCa?)
    ensures Inv(c, Next(c, s, e), Record(c, s, h, e))
  {
    hide SlotAt, BatchOf, Program, ApplyAll, Final, Shaped;
    var s2 := Next(c, s, e);
    SameProgram(s, s2);
    forall k | |h.sent| <= k < |h.written| ensures InPlace(c, s2, h, k) {
      assert InPlace(c, s, h, k);
    }
  }

  lemma SendKeeps(c: Config, s: State, h: History)
    requires Inv(c, s, h) && Enabled(c, s, Send)
    ensures Inv(c, Next(c, s, Send), Record(c, s, h, Send))
  {
    hide SlotAt, BatchOf, Program, ApplyAll, Final, Shaped;
    var s2, h2 := Next(c, s, Send), Record(c, s, h, Send);
    SlotNext(|h.sent|, c.size);
    BatchStable(h, h2, Even, h.released, |h.uses|, c.size);
    BatchStable(h, h2, Odd, h.released, |h.uses|, c.size);
    SameProgram(s, s2);
    assert InPlace(c, s, h, |h.sent|);
    forall k | |h2.sent| <= k < |h2.written| ensures InPlace(c, s2, h2, k) {
      assert InPlace(c, s, h, k);
    }
  }

  lemma NothingHeld(h: History, parity: Parity, at: nat, size: nat)
    requires at <= |h.uses| && at <= |h.written| && size > 0
    ensures BatchOf(h, parity, at, at, size) == []
  {
  }

  lemma ReleaseKeeps(c: Config, s: State, h: History)
    requires Inv(c, s, h) && Enabled(c, s, Release)
    ensures Inv(c, Next(c, s, Release), Record(c, s, h, Release))
  {
    hide SlotAt, BatchOf, Program, Final, Shaped;
    var s2, h2 := Next(c, s, Release), Record(c, s, h, Release);
    NothingHeld(h2, Even, |h.uses|, c.size);
    NothingHeld(h2, Odd, |h.uses|, c.size);
    assert Program(s)[s.phase.done..] == [];
    forall k | |h2.sent| <= k < |h2.written| ensures InPlace(c, s2, h2, k) {
      assert InPlace(c, s, h, k);
    }
  }

  lemma WorkKeeps(c: Config, s: State, h: History)
    requires Inv(c, s, h) && Enabled(c, s, Work)
    ensures Inv(c, Next(c, s, Work), Record(c, s, h, Work))
  {
    hide SlotAt, BatchOf, Program, Final, Shaped, Apply;
    var s2 := Next(c, s, Work);
    var n, op := s.phase.done, Program(s)[s.phase.done];
    SameProgram(s, s2);
    var at := OpSlots(c, s, h, n);
    assert Program(s)[n..][0] == op && Program(s)[n..][1..] == Program(s)[n + 1..];
    forall k | |h.sent| <= k < |h.written| ensures InPlace(c, s2, h, k) {
      assert InPlace(c, s, h, k);
      if k < at {
        SlotsDiffer(k, at, c.size);
      } else if at < k {
        SlotsDiffer(at, k, c.size);
      }
    }
  }

  // ---------- taking a packet ----------

  lemma CollectKeeps(c: Config, s: State, h: History)
    requires Inv(c, s, h) && Enabled(c, s, Take)
    ensures Consistent(c, Collect(c, s), Record(c, s, h, Take))
  {
    hide SlotAt, BatchOf, Program, Final, Shaped, PayloadOffset, ScrambledWith;
    var s2, h2 := Collect(c, s), Record(c, s, h, Take);
    var p := s.slots[s.decsaIdx];
    SlotNext(|h.uses|, c.size);
    assert InPlace(c, s, h, |h.uses|);
    assert p == h.written[|h.uses|];
    CollectBatch(c, s, h, Even);
    CollectBatch(c, s, h, Odd);
    forall k | |h.sent| <= k < |h.written| ensures InPlace(c, s2, h2, k) {
      assert InPlace(c, s, h, k);
    }
  }

  lemma BatchNext(h: History, parity: Parity, from: nat, until: nat, size: nat)
    requires from <= until < |h.uses| && until < |h.written| && size > 0
    ensures BatchOf(h, parity, from, until + 1, size)
         == BatchOf(h, parity, from, until, size)
            + if UsedFor(h, until, parity) then [Held(SlotAt(until, size), PayloadOffset(h.written[until]))] else []
  {
    hide SlotAt, PayloadOffset;
  }

  lemma CollectBatch(c: Config, s: State, h: History, parity: Parity)
    requires Inv(c, s, h) && Enabled(c, s, Take) && s.slots[s.decsaIdx] == h.written[|h.uses|]
    ensures Collect(c, s).Of(parity) == BatchOf(Record(c, s, h, Take), parity, h.released, |h.uses| + 1, c.size)
  {
    hide SlotAt, Program, Final, Shaped, PayloadOffset, ScrambledWith, BatchOf;
    var h2 := Record(c, s, h, Take);
    BatchStable(h, h2, parity, h.released, |h.uses|, c.size);
    BatchNext(h2, parity, h.released, |h.uses|, c.size);
    assert s.Of(parity) == BatchOf(h2, parity, h.released, |h.uses|, c.size);
    assert UsedFor(h2, |h.uses|, parity) <==> BatchFor(s, h.written[|h.uses|]) == Some(parity);
  }

  lemma {:induction false} BatchCovers(h: History, parity: Parity, from: nat, until: nat, size: nat, k: nat)
    requires until <= |h.uses| && until <= |h.written| && size > 0
    requires from <= k < until && UsedFor(h, k, parity)
    ensures BatchOf(h, parity, from, until, size) != []
    decreases until
  {
    if k < until - 1 {
      BatchCovers(h, parity, from, until - 1, size, k);
    }
  }

  /** Loading a key touches no packet that is held under the old one. */
  lemma LoadKeeps(c: Config, s: State, h: History)
    requires Consistent(c, s, h) && s.phase.Collecting?
    ensures Consistent(c, LoadEven(s), h) && Consistent(c, LoadOdd(s), h)
  {
    hide SlotAt, BatchOf, Program, Final;
    SameProgram(s, LoadEven(s));
    SameProgram(s, LoadOdd(s));
    forall k | h.released <= k < |h.uses| && h.uses[k].Some?
      ensures s.even == [] ==> h.uses[k].value.parity == Odd
      ensures s.odd == [] ==> h.uses[k].value.parity == Even
    {
      BatchCovers(h, h.uses[k].value.parity, h.released, |h.uses|, c.size, k);
    }
    forall k | |h.sent| <= k < |h.written|
      ensures InPlace(c, LoadEven(s), h, k) && InPlace(c, LoadOdd(s), h, k)
    {
      assert InPlace(c, s, h, k);
    }
  }

  lemma StartWorking(c: Config, s: State, h: History)
    requires Consistent(c, s, h) && s.phase.Collecting?
    ensures Inv(c, s.(phase := Working(0)), h)
  {
    hide SlotAt, BatchOf, Program, Final;
    var s2 := s.(phase := Working(0));
    SameProgram(s, s2);
    assert Program(s)[0..] == Program(s);
    forall k | |h.sent| <= k < |h.written| ensures InPlace(c, s2, h, k) {
      assert InPlace(c, s, h, k);
      if h.released <= k < |h.uses| {
        ProgramFinishes(c, s, h, h.released, |h.uses|, k);
      }
    }
  }

  lemma TakeKeeps(c: Config, s: State, h: History)
    requires Inv(c, s, h) && Enabled(c, s, Take)
    ensures Inv(c, Next(c, s, Take), Record(c, s, h, Take))
  {
    hide SlotAt, BatchOf, Program, Final, Shaped, Counts, Batches, Contents, KeysHeld;
    var t, h2 := Collect(c, s), Record(c, s, h, Take);
    CollectKeeps(c, s, h);
    if Full(c, t) {
      LoadKeeps(c, t, h2);
      LoadKeeps(c, LoadEven(t), h2);
      StartWorking(c, LoadOdd(LoadEven(t)), h2);
    } else {
      assert t.scrambled <= c.batch && t.nscrambled <= c.batch;
    }
  }

  // ---------- whole runs ----------

  lemma StepKeeps(c: Config, s: State, h: History, e: Event)
    requires Inv(c, s, h) && Enabled(c, s, e)
    ensures Inv(c, Next(c, s, e), Record(c, s, h, e))
  {
    hide Inv, Enabled, Next, Record;
    match e
    case Write(p) => WriteKeeps(c, s, h, p);
    case NewKey(_, _) => EnvironmentKeeps(c, s, h, e);
    case NewCa(_) => EnvironmentKeeps(c, s, h, e);
    case Take => TakeKeeps(c, s, h);
    case Work => WorkKeeps(c, s, h);
    case Release => ReleaseKeeps(c, s, h);
    case Send => SendKeeps(c, s, h);
  }

  predicate Starts(c: Config, s: State)
  {
    c.size > 0 && c.batch > 0 && |s.slots| == c.size && s == Initial(c, s.slots, s.pending, s.channelCa)
  }

  /** The invariant holds after every sequence of events, however the threads interleave. */
  lemma {:induction false} RunKeeps(c: Config, s0: State, events: seq<Event>)
    requires Starts(c, s0) && After(c, s0, events).Some?
    ensures var r := After(c, s0, events).value; Inv(c, r.state, r.history)
    decreases |events|
  {
    hide Inv, Enabled, Next, Record;
    if events == [] {
      InitialHolds(c, s0.slots, s0.pending, s0.channelCa);
    } else {
      var n := |events| - 1;
      RunKeeps(c, s0, events[..n]);
      var before := After(c, s0, events[..n]).value;
      StepKeeps(c, before.state, before.history, events[n]);
    }
  }
}

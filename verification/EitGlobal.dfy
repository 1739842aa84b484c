/** Taking in the EIT: sections are popped and stored until one brings nothing new. */
module EitGlobal {
  import opened Bytes
  import opened Sections
  import opened Demux
  import opened DemuxQueue
  import opened TsPacket
  import opened EitStore

  /** The store after the copies were put in. */
  ghost function AfterAll(before: seq<StoreEntry>, cs: seq<Copy>): seq<StoreEntry>
  {
    if cs == [] then before else Update(AfterAll(before, cs[..|cs| - 1]), cs[|cs| - 1])
  }

  /** Each copy brought something new when it came. */
  ghost predicate AllNew(before: seq<StoreEntry>, cs: seq<Copy>)
  {
    cs == [] ||
    (AllNew(before, cs[..|cs| - 1]) && NeedUpdate(AfterAll(before, cs[..|cs| - 1]), cs[|cs| - 1].data))
  }

  lemma StoredOne(before: seq<StoreEntry>, cs: seq<Copy>, c: Copy)
    requires AllNew(before, cs) && NeedUpdate(AfterAll(before, cs), c.data)
    ensures AllNew(before, cs + [c]) && AfterAll(before, cs + [c]) == Update(AfterAll(before, cs), c)
  {
    assert (cs + [c])[..|cs|] == cs;
  }

  /** The copy holds the section. */
  predicate Holds(c: Copy, s: seq<byte>)
  {
    c.len <= 4096 && c.data[..c.len] == s
  }

  /** The copies hold the first of the sections. */
  predicate HoldsFirst(cs: seq<Copy>, sections: seq<seq<byte>>)
  {
    |cs| <= |sections| && forall i :: 0 <= i < |cs| ==> Holds(cs[i], sections[i])
  }

  lemma HoldsMore(cs: seq<Copy>, c: Copy, sections: seq<seq<byte>>)
    requires HoldsFirst(cs, sections) && |cs| < |sections| && Holds(c, sections[|cs|])
    ensures HoldsFirst(cs + [c], sections)
  {
  }

  /** What the drain loop would hand out for the packet in all. */
  ghost function Waiting(st: State, p: Packet): seq<seq<byte>>
  {
    DrainRound(st, p).delivered
  }

  /** After n sections were popped: the rest is still queued. */
  ghost predicate Popped(st: State, p: Packet, n: nat, now: State)
  {
    && n <= |Waiting(st, p)|
    && now.partial == DrainRound(st, p).state.partial
    && (if Waiting(st, p) == [] then now == DrainRound(st, p).state else now.queue == Waiting(st, p)[n..])
  }

  /**
   A packet taken in: the first of the waiting sections that bring something new are stored, and
   the first that does not ends the loop, popped and not stored.
   */
  ghost predicate Taken(st: State, es: seq<StoreEntry>, p: Packet, cs: seq<Copy>, popped: nat, now: State,
    esNow: seq<StoreEntry>)
  {
    && Popped(st, p, popped, now) && HoldsFirst(cs, Waiting(st, p)) && AllNew(es, cs) && esNow == AfterAll(es, cs)
    && (popped == |cs| == |Waiting(st, p)|
        || (popped == |cs| + 1 && exists c: Copy :: Holds(c, Waiting(st, p)[|cs|]) && !NeedUpdate(esNow, c.data)))
  }

  lemma FirstPopped(st: State, p: Packet)
    ensures var reply := Call(st, Some(p));
      && (reply.available ==>
            reply.popped.Some? && Popped(st, p, 1, reply.state) && Waiting(st, p)[0] == reply.popped.value)
      && (!reply.available ==> Waiting(st, p) == [] && Popped(st, p, 0, reply.state))
  {
    var reply := Call(st, Some(p));
    if reply.available {
      DrainedIsQueue(reply.state);
      assert Waiting(st, p)[1..] == reply.state.queue;
    }
  }

  lemma NextPopped(st: State, p: Packet, n: nat, now: State)
    requires 0 < n && Popped(st, p, n, now)
    ensures var reply := Call(now, None);
      && (reply.available ==>
            reply.popped.Some? && Popped(st, p, n + 1, reply.state) && Waiting(st, p)[n] == reply.popped.value)
      && (!reply.available ==> n == |Waiting(st, p)| && Popped(st, p, n, reply.state))
  {
  }

  class EitRewriter {
    const fullEit: Assembler
    const store: Store
    var eitNeedsUpdate: bool

    constructor (fullEit: Assembler, store: Store)
      ensures this.fullEit == fullEit && this.store == store && !eitNeedsUpdate
    {
      this.fullEit, this.store, eitNeedsUpdate := fullEit, store, false;
    }

    /** Store the section popped last, if it brings something new. */
    method StoreOne(ghost s: seq<byte>) returns (updated: bool, copy: Copy)
      requires store.Valid() && fullEit.dataFull.Length == 4096
      requires fullEit.lenFull <= MAX_TS_SIZE && fullEit.dataFull[..fullEit.lenFull] == s
      modifies store, (set n | n in store.nodes)
      ensures store.Valid() && forall n :: n in store.nodes ==> n in old(store.nodes) || fresh(n)
      ensures Holds(copy, s) && updated == NeedUpdate(old(store.Entries()), copy.data)
      ensures store.Entries() == if updated then Update(old(store.Entries()), copy) else old(store.Entries())
    {
      copy := Copy(fullEit.dataFull[..], fullEit.lenFull);
      updated := store.Receive(copy);
    }

    /** The next section, if there is one. */
    method PopNext(ghost st: State, ghost p: Packet, ghost n: nat) returns (more: bool, ghost popped: nat)
      requires fullEit.Valid() && 0 < n && Popped(st, p, n, fullEit.Abs())
      modifies fullEit, fullEit.dataFull, fullEit.bufferFull, fullEit.fullLengths, fullEit.dataPartial
      ensures fullEit.Valid() && popped == (if more then n + 1 else n) && Popped(st, p, popped, fullEit.Abs())
      ensures fullEit.dataFull.Length == 4096 && popped <= |Waiting(st, p)|
      ensures more ==> fullEit.lenFull <= MAX_TS_SIZE && fullEit.dataFull[..fullEit.lenFull] == Waiting(st, p)[n]
      ensures !more ==> popped == |Waiting(st, p)|
    {
      hide Call, Feed, Waiting;
      NextPopped(st, p, n, fullEit.Abs());
      more := fullEit.GetTsPacket(null);
      popped := if more then n + 1 else n;
    }

    /** The first section, with the packet. */
    method PopFirst(tsPacket: array<byte>) returns (more: bool, ghost popped: nat)
      requires fullEit.Valid() && tsPacket.Length == TS_PACKET_SIZE
      requires tsPacket != fullEit.dataFull && tsPacket != fullEit.bufferFull && tsPacket != fullEit.dataPartial
      modifies fullEit, fullEit.dataFull, fullEit.bufferFull, fullEit.fullLengths, fullEit.dataPartial
      ensures fullEit.Valid() && fullEit.dataFull.Length == 4096
      ensures var st, p := old(fullEit.Abs()), old(tsPacket[..]);
        && popped <= |Waiting(st, p)|
        && popped == (if more then 1 else 0) && Popped(st, p, popped, fullEit.Abs())
        && (more ==> fullEit.lenFull <= MAX_TS_SIZE && fullEit.dataFull[..fullEit.lenFull] == Waiting(st, p)[0])
        && (!more ==> Waiting(st, p) == [])
    {
      hide Call, Feed, Waiting;
      FirstPopped(fullEit.Abs(), tsPacket[..]);
      more := fullEit.GetTsPacket(tsPacket);
      popped := if more then 1 else 0;
    }

    /** Where the loop stands: cs stored, popped sections out of the queue, one of them at hand if more. */
    ghost predicate On(st: State, p: Packet, before: seq<StoreEntry>, cs: seq<Copy>, popped: nat, more: bool)
      reads this, store, store.nodes, fullEit, fullEit.dataFull, fullEit.bufferFull, fullEit.fullLengths,
        fullEit.dataPartial
    {
      && fullEit.Valid() && store.Valid() && fullEit.dataFull.Length == 4096
      && popped == (if more then |cs| + 1 else |cs|)
      && Popped(st, p, popped, fullEit.Abs()) && popped <= |Waiting(st, p)|
      && (more ==> fullEit.lenFull <= MAX_TS_SIZE && fullEit.dataFull[..fullEit.lenFull] == Waiting(st, p)[|cs|])
      && (!more ==> popped == |Waiting(st, p)|)
      && HoldsFirst(cs, Waiting(st, p)) && AllNew(before, cs) && store.Entries() == AfterAll(before, cs)
    }

    /** One turn: store the section at hand and pop the next, or stop at one that brings nothing new. */
    method Turn(ghost st: State, ghost p: Packet, ghost before: seq<StoreEntry>, ghost cs: seq<Copy>, ghost popped: nat)
      returns (updated: bool, more: bool, copy: Copy, ghost nowPopped: nat)
      requires On(st, p, before, cs, popped, true)
      modifies this`eitNeedsUpdate, store, (set n | n in store.nodes)
      modifies fullEit, fullEit.dataFull, fullEit.bufferFull, fullEit.fullLengths, fullEit.dataPartial
      ensures forall n :: n in store.nodes ==> n in old(store.nodes) || fresh(n)
      ensures Holds(copy, Waiting(st, p)[|cs|])
      ensures updated ==> On(st, p, before, cs + [copy], nowPopped, more) && !eitNeedsUpdate
      ensures !updated ==> !NeedUpdate(store.Entries(), copy.data) && nowPopped == popped
      ensures !updated ==> On(st, p, before, cs, popped, true) && eitNeedsUpdate == old(eitNeedsUpdate)
    {
      hide Call, Feed, DrainRound, AllNew, AfterAll, NeedUpdate, Update, Waiting, Popped, Holds, HoldsFirst;
      hide Assembler.Valid, Assembler.Abs, Store.Valid, Store.Entries;
      more, nowPopped := true, popped;
      updated, copy := StoreOne(Waiting(st, p)[|cs|]);
      if updated {
        StoredOne(before, cs, copy);
        HoldsMore(cs, copy, Waiting(st, p));
        eitNeedsUpdate := false;
        more, nowPopped := PopNext(st, p, popped);
      }
    }

    /** Pop and store; cs are the copies stored, popped tells how many sections left the queue. */
    method Drain(tsPacket: array<byte>) returns (ghost cs: seq<Copy>, ghost popped: nat)
      requires fullEit.Valid() && store.Valid() && tsPacket.Length == TS_PACKET_SIZE
      requires tsPacket != fullEit.dataFull && tsPacket != fullEit.bufferFull && tsPacket != fullEit.dataPartial
      modifies this`eitNeedsUpdate, store, (set n | n in store.nodes)
      modifies fullEit, fullEit.dataFull, fullEit.bufferFull, fullEit.fullLengths, fullEit.dataPartial
      ensures fullEit.Valid() && store.Valid()
      ensures Taken(old(fullEit.Abs()), old(store.Entries()), old(tsPacket[..]), cs, popped, fullEit.Abs(),
        store.Entries())
      ensures eitNeedsUpdate == (old(eitNeedsUpdate) && cs == [])
    {
      hide Call, Feed, DrainRound, AllNew, AfterAll, NeedUpdate, Update, Waiting, Popped, Holds, HoldsFirst;
      hide Assembler.Valid, Assembler.Abs, Store.Valid, Store.Entries;
      ghost var st, p, before := fullEit.Abs(), tsPacket[..], store.Entries();
      cs := [];
      NothingStored(before, Waiting(st, p));
      var more;
      more, popped := PopFirst(tsPacket);
      while more
        invariant On(st, p, before, cs, popped, more)
        invariant forall n :: n in store.nodes ==> n in old(store.nodes) || fresh(n)
        invariant eitNeedsUpdate == (old(eitNeedsUpdate) && cs == [])
        decreases more, |Waiting(st, p)| - popped
      {
        var updated, copy;
        updated, more, copy, popped := Turn(st, p, before, cs, popped);
        if !updated {
          break;
        }
        cs := cs + [copy];
      }
    }

    /** One packet of the EIT PID; isNewer is what the version test on the packet said. */
    method NewGlobalPacket(tsPacket: array<byte>, isNewer: bool) returns (ghost cs: seq<Copy>, ghost popped: nat)
      requires fullEit.Valid() && store.Valid() && tsPacket.Length == TS_PACKET_SIZE
      requires tsPacket != fullEit.dataFull && tsPacket != fullEit.bufferFull && tsPacket != fullEit.dataPartial
      modifies this`eitNeedsUpdate, store, (set n | n in store.nodes)
      modifies fullEit, fullEit.dataFull, fullEit.bufferFull, fullEit.fullLengths, fullEit.dataPartial
      ensures fullEit.Valid() && store.Valid()
      ensures !old(eitNeedsUpdate) && !isNewer ==>
        fullEit.Abs() == old(fullEit.Abs()) && store.Entries() == old(store.Entries()) && !eitNeedsUpdate
      ensures old(eitNeedsUpdate) || isNewer ==>
        && Taken(old(fullEit.Abs()), old(store.Entries()), old(tsPacket[..]), cs, popped, fullEit.Abs(),
          store.Entries())
        && (eitNeedsUpdate <==> cs == [])
    {
      hide Taken;
      hide Assembler.Valid, Assembler.Abs, Store.Valid, Store.Entries;
      cs, popped := [], 0;
      if !eitNeedsUpdate {
        eitNeedsUpdate := isNewer;
      }
      if eitNeedsUpdate {
        cs, popped := Drain(tsPacket);
      }
    }
  }

  lemma NothingStored(es: seq<StoreEntry>, sections: seq<seq<byte>>)
    ensures AllNew(es, []) && AfterAll(es, []) == es && HoldsFirst([], sections)
  {
  }
}

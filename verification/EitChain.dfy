/** From the EIT PID to the channels: whatever a channel sends came in as a section. */
module EitChain {
  import opened Bytes
  import opened Sections
  import opened Demux
  import opened DemuxQueue
  import opened DemuxComplete
  import opened DemuxSound
  import opened EitCursor
  import EitStore
  import opened EitGlobal
  import opened EitService
  import opened EitSend

  // ---------- runs of the program ----------

  /** One packet taken in: the copies stored, the sections popped, and the state it leaves. */
  datatype Arrival = Arrival(p: Packet, cs: seq<EitStore.Copy>, popped: nat, st: State, es: seq<EitStore.StoreEntry>)

  function StateAfter(run: seq<Arrival>): State
  {
    if run == [] then State(Idle, []) else run[|run| - 1].st
  }

  function StoreAfter(run: seq<Arrival>): seq<EitStore.StoreEntry>
  {
    if run == [] then [] else run[|run| - 1].es
  }

  function Packets(run: seq<Arrival>): seq<Packet>
  {
    if run == [] then [] else Packets(run[..|run| - 1]) + [run[|run| - 1].p]
  }

  function Copies(run: seq<Arrival>): seq<EitStore.Copy>
  {
    if run == [] then [] else Copies(run[..|run| - 1]) + run[|run| - 1].cs
  }

  /** Packets of the EIT PID, taken in one after the other from an empty reassembler and an empty store. */
  ghost predicate Possible(run: seq<Arrival>)
  {
    run == [] ||
    var past, a := run[..|run| - 1], run[|run| - 1];
    && Possible(past) && Pid(a.p) == EIT_PID as nat
    && Taken(StateAfter(past), StoreAfter(past), a.p, a.cs, a.popped, a.st, a.es)
  }

  // ---------- what is stored came in ----------

  function SectionOf(c: EitStore.Copy): seq<byte>
  {
    c.data[..Min(c.len, 4096)]
  }

  /** The copy holds an intact section that the packets carry. */
  ghost predicate CameIn(h: seq<Packet>, c: EitStore.Copy)
  {
    c.len <= 4096 && IsSection(SectionOf(c)) && Carried(h, SectionOf(c))
  }

  ghost predicate EntryCameIn(h: seq<Packet>, e: EitStore.StoreEntry)
  {
    forall n :: n in e.sections ==> CameIn(h, e.sections[n])
  }

  ghost predicate AllCameIn(h: seq<Packet>, es: seq<EitStore.StoreEntry>)
  {
    forall i :: 0 <= i < |es| ==> EntryCameIn(h, es[i])
  }

  lemma AllCameInStable(h: seq<Packet>, p: Packet, es: seq<EitStore.StoreEntry>)
    requires AllCameIn(h, es)
    ensures AllCameIn(h + [p], es)
  {
    hide IsSection, Carried, SectionOf;
    forall i, n | 0 <= i < |es| && n in es[i].sections ensures CameIn(h + [p], es[i].sections[n]) {
      assert EntryCameIn(h, es[i]);
      CarriedStable(h, p, SectionOf(es[i].sections[n]));
    }
  }

  lemma UpdateCameIn(h: seq<Packet>, es: seq<EitStore.StoreEntry>, c: EitStore.Copy)
    requires AllCameIn(h, es) && CameIn(h, c)
    ensures AllCameIn(h, EitStore.Update(es, c))
  {
    hide CameIn;
    var now := EitStore.Update(es, c);
    forall i | 0 <= i < |now| ensures EntryCameIn(h, now[i]) {
      if i < |es| {
        assert EntryCameIn(h, es[i]);
      }
    }
  }

  lemma {:induction false} CopiesCameIn(h: seq<Packet>, es: seq<EitStore.StoreEntry>, cs: seq<EitStore.Copy>)
    requires AllCameIn(h, es) && forall c :: c in cs ==> CameIn(h, c)
    ensures AllCameIn(h, AfterAll(es, cs))
  {
    if cs != [] {
      hide AllCameIn, CameIn;
      CopiesCameIn(h, es, cs[..|cs| - 1]);
      UpdateCameIn(h, AfterAll(es, cs[..|cs| - 1]), cs[|cs| - 1]);
    }
  }

  lemma HeldCameIn(h: seq<Packet>, cs: seq<EitStore.Copy>, sections: seq<seq<byte>>)
    requires QueueSound(h, sections) && HoldsFirst(cs, sections)
    ensures forall c :: c in cs ==> CameIn(h, c)
  {
    hide IsSection, Carried;
    forall c | c in cs ensures CameIn(h, c) {
      var i :| 0 <= i < |cs| && cs[i] == c;
      assert sections[i] in sections;
    }
  }

  // ---------- the reassembler on the way ----------

  lemma RoundSound(h: seq<Packet>, st: State, p: Packet)
    requires PartialSound(h, st.partial) && QueueSound(h, st.queue)
    ensures var r := DrainRound(st, p);
      PartialSound(h + [p], r.state.partial) && QueueSound(h + [p], r.state.queue) && QueueSound(h + [p], r.delivered)
  {
    hide Feed, Carried, IsSection, PartialSound;
    FeedSound(h, st.partial, p);
    QueueSoundStable(h, p, st.queue);
    PushAllMembers(Rest(st.queue), Feed(st.partial, p).done);
    DrainedIsQueue(Call(st, Some(p)).state);
  }

  lemma TakenSound(h: seq<Packet>, st: State, es: seq<EitStore.StoreEntry>, a: Arrival)
    requires PartialSound(h, st.partial) && QueueSound(h, st.queue) && AllCameIn(h, es)
    requires Taken(st, es, a.p, a.cs, a.popped, a.st, a.es)
    ensures PartialSound(h + [a.p], a.st.partial) && QueueSound(h + [a.p], a.st.queue) && AllCameIn(h + [a.p], a.es)
  {
    hide DrainRound, PartialSound, AllCameIn, CameIn, AllNew, AfterAll, HoldsFirst, IsSection, Carried,
      EitStore.NeedUpdate;
    RoundSound(h, st, a.p);
    HeldCameIn(h + [a.p], a.cs, Waiting(st, a.p));
    AllCameInStable(h, a.p, es);
    CopiesCameIn(h + [a.p], es, a.cs);
  }

  /**
   In every run, what waits and what is stored is intact and came in by packets of one PID with
   consecutive counters.
   */
  lemma {:induction false} RunCameIn(run: seq<Arrival>)
    requires Possible(run)
    ensures var h, st := Packets(run), StateAfter(run);
      PartialSound(h, st.partial) && QueueSound(h, st.queue) && AllCameIn(h, StoreAfter(run))
  {
    hide Taken, PartialSound, QueueSound, AllCameIn;
    if run == [] {
      NothingCameIn();
    } else {
      var past := run[..|run| - 1];
      RunCameIn(past);
      TakenSound(Packets(past), StateAfter(past), StoreAfter(past), run[|run| - 1]);
    }
  }

  lemma NothingCameIn()
    ensures PartialSound([], Idle) && QueueSound([], []) && AllCameIn([], [])
  {
  }

  // ---------- the store of a run is a store of received sections ----------

  lemma {:induction false} ReceivedMore(past: seq<EitStore.Copy>, cs: seq<EitStore.Copy>)
    requires AllNew(EitStore.Received(past), cs)
    ensures EitStore.Received(past + cs) == AfterAll(EitStore.Received(past), cs)
    decreases |cs|
  {
    if cs == [] {
      assert past + cs == past;
    } else {
      hide EitStore.NeedUpdate, EitStore.Update;
      ReceivedMore(past, cs[..|cs| - 1]);
      assert (past + cs)[..|past + cs| - 1] == past + cs[..|cs| - 1];
    }
  }

  lemma {:induction false} StoreIsReceived(run: seq<Arrival>)
    requires Possible(run)
    ensures StoreAfter(run) == EitStore.Received(Copies(run))
  {
    if run != [] {
      hide EitStore.Received, Waiting, Popped, HoldsFirst, AfterAll, AllNew;
      StoreIsReceived(run[..|run| - 1]);
      ReceivedMore(Copies(run[..|run| - 1]), run[|run| - 1].cs);
    } else {
      assert Copies(run) == [];
    }
  }

  // ---------- what is sent ----------

  /** All packets of a run are of the EIT PID. */
  lemma {:induction false} PacketsOfEit(run: seq<Arrival>)
    requires Possible(run)
    ensures forall p :: p in Packets(run) ==> Pid(p) == EIT_PID as nat
  {
    if run != [] {
      hide Taken;
      PacketsOfEit(run[..|run| - 1]);
    }
  }

  /**
   In every run of the program, whatever was received: what a channel sends next is an intact
   section of its own service and table that packets of the EIT PID carried in, and whoever
   reassembles the packets sent gets this section back, if they are clear, and nothing otherwise.
   */
  lemma SentCameIn(run: seq<Arrival>, sid: nat, c: Cursor, partial: Partial, cc: nat)
    requires Possible(run) && CursorOk(c) && cc < 16
    ensures LastFits(StoreAfter(run)) && forall p :: p in Packets(run) ==> Pid(p) == EIT_PID as nat
    ensures var es := StoreAfter(run);
      var sent := Send(ViewOf(es, sid), c).sent;
      sent.Some? ==>
        var k := sent.value;
        && k / 256 < TABLES && EitStore.Lookup(es, sid, TableOf(k / 256), k % 256).Some?
        && var x := EitStore.Lookup(es, sid, TableOf(k / 256), k % 256).value;
           && IsOwn(x, sid, k) && CameIn(Packets(run), x)
           && FeedAll(partial, Packetise(SectionOf(x), true, cc)).done
           == if Clear(SectionOf(x), true, cc) then [SectionOf(x)] else []
  {
    hide EitStore.Received, Send, Possible, Taken, IsOwn, Stored, Clear, FeedAll, Packetise, CameIn, PartialSound,
      QueueSound;
    RunCameIn(run);
    PacketsOfEit(run);
    StoreIsReceived(run);
    SentIsOwn(Copies(run), sid, c);
    var es := StoreAfter(run);
    var sent := Send(ViewOf(es, sid), c).sent;
    if sent.Some? {
      var k := sent.value;
      var x := EitStore.Lookup(es, sid, TableOf(k / 256), k % 256).value;
      assert EntryCameIn(Packets(run), es[EitStore.Find(es, sid, TableOf(k / 256)).value]);
      SentReassembles(Packets(run), x, sid, k, partial, cc);
    }
  }

  lemma SentReassembles(h: seq<Packet>, x: EitStore.Copy, sid: nat, k: nat, partial: Partial, cc: nat)
    requires cc < 16 && k / 256 < TABLES && IsOwn(x, sid, k) && CameIn(h, x)
    ensures FeedAll(partial, Packetise(SectionOf(x), true, cc)).done
         == if Clear(SectionOf(x), true, cc) then [SectionOf(x)] else []
  {
    hide Clear, FeedAll, Packetise, Carried, Accepts;
    assert SectionOf(x)[0] == x.data[0];
    SendReassemble(partial, SectionOf(x), cc);
  }
}

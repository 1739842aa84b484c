/** What the descrambling pipeline does to packets as the standard writes them, and to the keys it is given. */
module RingLayout {
  import opened Bytes
  import opened Sections
  import opened Layout
  import opened Ring
  import opened RingSafety
  import RingPipeline

  // ---------- the packets ----------

  /** The packet can be descrambled: it has a payload, which its control bits say is scrambled. */
  function ParityOf(f: Fields): Option<Parity>
  {
    if f.control != 1 && f.control != 3 then None
    else if f.scrambling == 2 then Some(Even)
    else if f.scrambling == 3 then Some(Odd)
    else None
  }

  lemma PayloadFound(f: Fields)
    ensures PayloadOffset(Packed(f)) == if f.control == 1 || f.control == 3 then 188 - |f.payload| else 0
    ensures ScrambledWith(Packed(f)) == ParityOf(f)
  {
    FieldsRead(f);
    WrittenParts(f);
    FourthByte(f.scrambling, f.control, f.cc);
    hide Packed, FixedHeader, AdaptationField;
  }

  /** A packet without sync byte, or whose adaptation field leaves no payload, counts as not scrambled. */
  lemma NoPayloadFound(p: Packet)
    requires p[0] != 0x47 || (Afc(p) == 3 && p[4] >= 183)
    ensures ScrambledWith(p).None?
  {
  }

  /** The packet in the clear: its payload decrypted and its control bits zero, all else as written. */
  function InTheClear(decrypt: Cipher, key: Key, f: Fields): Fields
  {
    f.(scrambling := 0, payload := decrypt(key, f.payload))
  }

  lemma FinalIsClear(c: Config, f: Fields, use: Use)
    requires f.control == 1 || f.control == 3
    ensures Final(c, Packed(f), Some(use)) == Packed(InTheClear(c.decrypt, use.key, f))
  {
    var g, o := InTheClear(c.decrypt, use.key, f), 188 - |f.payload|;
    var p := Packed(f);
    PayloadFound(f);
    WrittenParts(f);
    FieldsRead(f);
    SameHeader(f, g);
    SameAdaptation(f, g);
    hide Packed, PayloadOffset, AdaptationField, FixedHeader;
    var q := Final(c, p, Some(use));
    Decrypted(c, use.key, p, o);
    BeforePayload(p, q, o, FixedHeader(f), FixedHeader(g), AdaptationField(f));
    ThreeParts(q, o, g);
  }

  /** The work changes byte 3 and the payload. */
  lemma Decrypted(c: Config, key: Key, p: Packet, o: nat)
    requires 4 <= o <= 188
    ensures var q := ClearControl(DecryptPayload(c.decrypt, key, p, o));
      q[..o] == p[..o][3 := p[3] % 64] && q[o..] == c.decrypt(key, p[o..])
  {
    var d := DecryptPayload(c.decrypt, key, p, o);
    assert d[..o] == p[..o] && d[o..] == c.decrypt(key, p[o..]) && d[3] == d[..o][3];
  }

  lemma BeforePayload(p: Packet, q: Packet, o: nat, h: seq<byte>, k: seq<byte>, a: seq<byte>)
    requires 4 <= o <= 188 && |h| == |k| == 4 && k[..3] == h[..3] && k[3] == p[3] % 64
    requires p[..o] == h + a && q[..o] == p[..o][3 := p[3] % 64]
    ensures q[..4] == k && q[4..o] == a
  {
    assert q[..4] == q[..o][..4] && q[4..o] == q[..o][4..];
    assert q[..o] == h[3 := p[3] % 64] + a;
    assert h[3 := p[3] % 64] == k;
  }

  lemma SameHeader(f: Fields, g: Fields)
    requires g == f.(scrambling := 0, payload := g.payload)
    ensures FixedHeader(f)[..3] == FixedHeader(g)[..3] && FixedHeader(g)[3] == f.control * 16 + f.cc
  {
  }

  /**
   What goes out, over every run: a packet that was batched goes out in the clear, decrypted with the key of
   the parity its control bits name; any other goes out as it was written.
   */
  lemma SentInTheClear(c: Config, s0: State, events: seq<Event>, k: nat, f: Fields)
    requires Starts(c, s0) && After(c, s0, events).Some?
    requires var h := After(c, s0, events).value.history;
      k < |h.sent| && k < |RingPipeline.Written(events)| && RingPipeline.Written(events)[k] == Packed(f)
    ensures var h := After(c, s0, events).value.history;
      && k < |h.uses|
      && match h.uses[k]
         case None => h.sent[k] == Packed(f)
         case Some(use) =>
           && ParityOf(f) == Some(use.parity) && RingPipeline.Delivered(s0, events, use.parity, use.key)
           && h.sent[k] == Packed(InTheClear(c.decrypt, use.key, f))
  {
    hide Packed, After, Starts, Final, RingPipeline.Delivered, RingPipeline.Written, ScrambledWith, PayloadOffset;
    RingPipeline.FirstInFirstOut(c, s0, events);
    RingPipeline.UsesExplained(c, s0, events);
    RingPipeline.WrittenRecorded(c, s0, events);
    var h := After(c, s0, events).value.history;
    assert h.sent[k] == Final(c, Packed(f), h.uses[k]);
    if h.uses[k].Some? {
      assert RingPipeline.Explained(s0, events, h.written[k], h.uses[k]);
      PayloadFound(f);
      FinalIsClear(c, f, h.uses[k].value);
    } else {
      Untouched(c, Packed(f));
    }
  }

  lemma Untouched(c: Config, p: Packet)
    ensures Final(c, p, None) == p
  {
  }

  /** A taken packet is to be descrambled exactly when its control bits name a parity whose key is loaded. */
  lemma TakenForDescrambling(c: Config, s: State, h: History, f: Fields)
    requires Inv(c, s, h) && Enabled(c, s, Take) && |h.uses| < |h.written| && h.written[|h.uses|] == Packed(f)
    ensures var use := Record(c, s, h, Take).uses[|h.uses|];
      use == match ParityOf(f)
             case None => None
             case Some(parity) =>
               if s.caIdx != 0 && s.keys.Of(parity).Some? then Some(Use(parity, s.keys.Of(parity).value)) else None
  {
    hide Packed, ScrambledWith, PayloadOffset, SlotAt;
    assert InPlace(c, s, h, |h.uses|);
    PayloadFound(f);
  }

  // ---------- the keys ----------

  function Other(parity: Parity): Parity { if parity.Even? then Odd else Even }

  /** The waiting key is wanted: there is none yet, or the batch at hand needs only the other one. */
  predicate Wanted(before: State, after: State, parity: Parity)
  {
    before.keys.Of(parity).None? || (after.Of(parity) == [] && after.Of(Other(parity)) != [])
  }

  /**
   A key delivered waits until it is loaded or a newer one takes its place.  It is loaded when the first
   full batch comes that does not need the one it replaces, and for the first time at any full batch.
   */
  lemma WaitingKeyLoaded(c: Config, s: State, e: Event, parity: Parity)
    requires Enabled(c, s, e) && s.pending.Of(parity).Some? && !(e.NewKey? && e.parity == parity)
    ensures var t := Next(c, s, e);
      if e.Take? && t.phase.Working? && Wanted(s, t, parity)
      then t.keys.Of(parity) == s.pending.Of(parity) && t.pending.Of(parity).None?
      else t.keys.Of(parity) == s.keys.Of(parity) && t.pending.Of(parity) == s.pending.Of(parity)
  {
    hide Program, Apply, Sorted;
    if e.Take? {
      SortingKeepsKeys(s, s.slots[s.decsaIdx]);
    }
  }

  lemma SortingKeepsKeys(s: State, p: Packet)
    ensures Sorted(s, p).keys == s.keys && Sorted(s, p).pending == s.pending && Sorted(s, p).phase == s.phase
  {
  }

  /** A newly delivered key waits. */
  lemma NewKeyWaits(c: Config, s: State, parity: Parity, key: Key)
    requires Enabled(c, s, NewKey(parity, key))
    ensures var t := Next(c, s, NewKey(parity, key));
      && t.pending.Of(parity) == Some(key) && t.pending.Of(Other(parity)) == s.pending.Of(Other(parity))
      && t.keys == s.keys
  {
  }

  /** The last CA index set in the events, or the one there was. */
  function ChannelIndex(s0: State, events: seq<Event>): nat
  {
    if events == [] then s0.channelCa
    else if events[|events| - 1].NewCa? then events[|events| - 1].index
    else ChannelIndex(s0, events[..|events| - 1])
  }

  /** The CA index that was set when a batch was last released. */
  function ReleasedIndex(s0: State, events: seq<Event>): nat
  {
    if events == [] then s0.caIdx
    else if events[|events| - 1].Release? then ChannelIndex(s0, events)
    else ReleasedIndex(s0, events[..|events| - 1])
  }

  /** In every run the descrambler goes by the CA index that was set when it last released a batch. */
  lemma {:induction false} CaIndexIs(c: Config, s0: State, events: seq<Event>)
    requires After(c, s0, events).Some?
    ensures var s := After(c, s0, events).value.state;
      s.caIdx == ReleasedIndex(s0, events) && s.channelCa == ChannelIndex(s0, events)
    decreases |events|
  {
    if events != [] {
      hide Enabled, Record, Program, Apply, Put, Sorted;
      var past := events[..|events| - 1];
      CaIndexIs(c, s0, past);
      var s := After(c, s0, past).value.state;
      if events[|events| - 1].Take? {
        TakeKeepsIndices(c, s);
      } else if events[|events| - 1].Write? {
        PutKeepsIndices(c, s, events[|events| - 1].packet);
      }
    }
  }

  lemma TakeKeepsIndices(c: Config, s: State)
    requires Enabled(c, s, Take)
    ensures var t := Next(c, s, Take); t.caIdx == s.caIdx && t.channelCa == s.channelCa
  {
  }

  lemma PutKeepsIndices(c: Config, s: State, p: Packet)
    requires s.writeIdx < |s.slots|
    ensures var t := Put(c, s, p); t.caIdx == s.caIdx && t.channelCa == s.channelCa
  {
  }
}

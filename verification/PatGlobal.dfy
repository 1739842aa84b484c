/** Keeping the full Program Association Table up to date: the drain loop of a client. */
module PatGlobal {
  import opened Bytes
  import opened Sections
  import opened Demux
  import opened DemuxQueue
  import opened TsPacket
  import opened Rewriting
  import opened PatRewrite

  /** The stored version (-1 at first), whether a new table is wanted, whether there is one. */
  datatype Knowledge = Knowledge(version: int, needsUpdate: bool, ok: bool)

  /** The result buffer with a section in it; behind the section is what was there before. */
  type Image = d: seq<byte> | |d| == MAX_TS_SIZE witness Repeat(0, MAX_TS_SIZE)

  /** An applicable table is taken over; one that is not yet applicable is ignored. */
  function Learn(k: Knowledge, d: Image): Knowledge
  {
    if d[5] % 2 == 1 then Knowledge(d[5] / 2 % 32, false, true) else k
  }

  function LearnAll(k: Knowledge, ds: seq<Image>): Knowledge
  {
    if ds == [] then k else Learn(LearnAll(k, ds[..|ds| - 1]), ds[|ds| - 1])
  }

  /** The images hold the sections, one after the other. */
  predicate Hold(ds: seq<Image>, sections: seq<seq<byte>>)
  {
    |ds| == |sections| && forall i :: 0 <= i < |ds| ==> sections[i] <= ds[i]
  }

  /** The result buffer after a round: the last image, or else what left the queue without being reported. */
  predicate LeftBy(before: Image, images: seq<Image>, popped: Option<seq<byte>>, after: Image)
  {
    if images != [] then after == images[|images| - 1]
    else if popped.Some? then popped.value <= after
    else after == before
  }

  /** The reassembler, its result buffer, and what is known of the table. */
  datatype Table = Table(st: State, d: Image, known: Knowledge)

  /** One packet taken in. */
  ghost predicate TakenIn(before: Table, p: Packet, images: seq<Image>, after: Table)
  {
    var round := DrainRound(before.st, p);
    && after.st == round.state && Hold(images, round.delivered) && after.known == LearnAll(before.known, images)
    && LeftBy(before.d, images, Head(before.st.queue), after.d)
  }

  lemma LearnSnoc(k: Knowledge, ds: seq<Image>, d: Image, sections: seq<seq<byte>>, s: seq<byte>)
    requires Hold(ds, sections) && s <= d
    ensures LearnAll(k, ds + [d]) == Learn(LearnAll(k, ds), d) && Hold(ds + [d], sections + [s])
  {
    assert (ds + [d])[..|ds|] == ds;
  }

  /** The next turn of the drain loop. */
  lemma NextDrained(d: seq<seq<byte>>, s: seq<byte>, st: State)
    ensures var reply := Call(st, None);
      && (reply.available ==>
            reply.popped.Some? && d + [s] + Drained(st) == (d + [s]) + [reply.popped.value] + Drained(reply.state)
                              && reply.state.(queue := []) == st.(queue := []))
      && (!reply.available ==> d + [s] + Drained(st) == d + [s] && reply.state == st.(queue := []))
  {
  }

  /** The packet with another continuity counter. */
  function WithCounter(p: Packet, cc: nat): Packet
  {
    p[3 := p[3] / 16 * 16 + cc % 16]
  }

  /** What a channel keeps for its own table. */
  class PatChannel {
    var pids: seq<int>
    var serviceId: int
    var ready: bool
    const generatedPat: array<byte>
    var generatedPatVersion: int

    constructor (pids: seq<int>, serviceId: int)
      ensures this.pids == pids && this.serviceId == serviceId && !ready && generatedPatVersion == -1
      ensures generatedPat.Length == TS_PACKET_SIZE && fresh(generatedPat)
    {
      this.pids, this.serviceId, ready, generatedPatVersion := pids, serviceId, false, -1;
      generatedPat := new byte[TS_PACKET_SIZE](_ => 0);
    }

    /** The channel's packet is made anew, once for each version. */
    predicate Generates(k: Knowledge)
      reads this
    {
      k.ok && !k.needsUpdate && ready && generatedPatVersion != k.version
    }
  }

  class PatRewriter {
    const fullPat: Assembler
    var patVersion: int
    var patNeedsUpdate: bool
    var fullPatOk: bool
    var patContinuityCounter: nat

    constructor (fullPat: Assembler)
      ensures this.fullPat == fullPat && Known() == Knowledge(-1, true, false) && patContinuityCounter == 0
    {
      this.fullPat := fullPat;
      patVersion, patNeedsUpdate, fullPatOk, patContinuityCounter := -1, true, false, 0;
    }

    function Known(): Knowledge
      reads this
    {
      Knowledge(patVersion, patNeedsUpdate, fullPatOk)
    }

    ghost function Abs(): Table
      reads this, fullPat, fullPat.dataFull, fullPat.bufferFull, fullPat.fullLengths, fullPat.dataPartial
      requires fullPat.Valid()
    {
      Table(fullPat.Abs(), fullPat.dataFull[..], Known())
    }

    method TakeOver()
      requires fullPat.dataFull.Length == MAX_TS_SIZE
      modifies this`patVersion, this`patNeedsUpdate, this`fullPatOk
      ensures Known() == Learn(old(Known()), fullPat.dataFull[..])
    {
      if fullPat.dataFull[5] % 2 == 1 {
        patVersion := fullPat.dataFull[5] / 2 % 32;
        patNeedsUpdate := false;
        fullPatOk := true;
      }
    }

    /** Take the packet in, and every section that is waiting. */
    method Drain(tsPacket: array<byte>) returns (ghost images: seq<Image>)
      requires fullPat.Valid() && tsPacket.Length == TS_PACKET_SIZE
      requires tsPacket != fullPat.dataFull && tsPacket != fullPat.bufferFull && tsPacket != fullPat.dataPartial
      modifies this`patVersion, this`patNeedsUpdate, this`fullPatOk
      modifies fullPat, fullPat.dataFull, fullPat.bufferFull, fullPat.fullLengths, fullPat.dataPartial
      ensures fullPat.Valid()
      ensures TakenIn(old(Abs()), old(tsPacket[..]), images, Abs())
    {
      hide Call, Feed, Learn;
      images := [];
      ghost var round, known := DrainRound(fullPat.Abs(), tsPacket[..]), Known();
      ghost var d: seq<seq<byte>>, s: seq<byte> := [], [];
      ghost var reply := Call(fullPat.Abs(), Some(tsPacket[..]));
      ghost var before: Image, popped := fullPat.dataFull[..], reply.popped;
      AvailableIsPopped(fullPat.Abs(), tsPacket[..]);
      var more := fullPat.GetTsPacket(tsPacket);
      if more { s := reply.popped.value; }
      while more
        invariant fullPat.Valid()
        invariant more ==> fullPat.lenFull <= MAX_TS_SIZE && fullPat.dataFull[..fullPat.lenFull] == s
        invariant more ==>
          d + [s] + Drained(fullPat.Abs()) == round.delivered && fullPat.Abs().(queue := []) == round.state
        invariant !more ==> d == round.delivered && fullPat.Abs() == round.state
        invariant Hold(images, d) && Known() == LearnAll(known, images)
        invariant !more ==> LeftBy(before, images, popped, fullPat.dataFull[..])
        decreases more, |fullPat.Abs().queue|
      {
        ghost var image := fullPat.dataFull[..];
        TakeOver();
        LearnSnoc(known, images, image, d, s);
        images := images + [image];
        NextDrained(d, s, fullPat.Abs());
        reply := Call(fullPat.Abs(), None);
        PopShortens(fullPat.Abs());
        more := fullPat.GetTsPacket(null);
        d := d + [s];
        if more { s := reply.popped.value; }
      }
    }

    /** One packet of the table's PID; isNewer is what the version test on the packet said. */
    method NewGlobalPacket(tsPacket: array<byte>, isNewer: bool) returns (ghost images: seq<Image>)
      requires fullPat.Valid() && tsPacket.Length == TS_PACKET_SIZE
      requires tsPacket != fullPat.dataFull && tsPacket != fullPat.bufferFull && tsPacket != fullPat.dataPartial
      modifies this`patVersion, this`patNeedsUpdate, this`fullPatOk, this`patContinuityCounter
      modifies fullPat, fullPat.dataFull, fullPat.bufferFull, fullPat.fullLengths, fullPat.dataPartial
      ensures fullPat.Valid() && patContinuityCounter == (old(patContinuityCounter) + 1) % 16
      ensures !old(patNeedsUpdate) && !isNewer ==> Abs() == old(Abs())
      ensures old(patNeedsUpdate) || isNewer ==>
        var before := old(Abs());
        TakenIn(before.(known := before.known.(needsUpdate := true)), old(tsPacket[..]), images, Abs())
    {
      hide TakenIn;
      images := [];
      if !patNeedsUpdate {
        patNeedsUpdate := isNewer;
      }
      if patNeedsUpdate {
        images := Drain(tsPacket);
      }
      patContinuityCounter := patContinuityCounter + 1;
      patContinuityCounter := patContinuityCounter % 16;
    }

    /** One packet of the table's PID for a channel: its own table is sent in its place, if there is one. */
    method NewChannelPacket(tsPacket: array<byte>, channel: PatChannel) returns (send: bool, ghost section: seq<byte>)
      requires fullPat.Valid() && tsPacket.Length == channel.generatedPat.Length == TS_PACKET_SIZE
      requires tsPacket != fullPat.dataFull && tsPacket != fullPat.bufferFull && tsPacket != fullPat.dataPartial
      requires channel.generatedPat !in {tsPacket, fullPat.dataFull, fullPat.bufferFull, fullPat.dataPartial}
      modifies fullPat.dataFull, tsPacket, channel`generatedPatVersion, channel.generatedPat
      ensures fullPat.Valid()
      ensures var t := old(Abs());
        && Abs() == (if old(channel.Generates(Known())) then t.(d := OnlySection(t.d)) else t)
        && channel.generatedPatVersion
           == (if old(channel.Generates(Known())) then patVersion else old(channel.generatedPatVersion))
      ensures if old(channel.Generates(Known())) then
          var d := old(fullPat.dataFull[..]);
          CarriesOne(channel.generatedPat[..], TsHeader(old(tsPacket[..])), section)
            && Sealed(section, PatBody(d, KeptPrograms(d, channel.pids, channel.serviceId)))
        else channel.generatedPat[..] == old(channel.generatedPat[..])
      ensures send == (fullPatOk && channel.generatedPatVersion == patVersion)
      ensures tsPacket[..]
           == if send then WithCounter(channel.generatedPat[..], patContinuityCounter) else old(tsPacket[..])
    {
      hide CarriesOne, Sealed, KeptPrograms, PatBody, TsHeader, OnlySection;
      section := [];
      if !fullPatOk {
        return false, section;
      }
      if !patNeedsUpdate && channel.ready && channel.generatedPatVersion != patVersion {
        section := PatChannelRewrite(fullPat.dataFull, tsPacket, channel.generatedPat, channel.pids, channel.serviceId);
        channel.generatedPatVersion := patVersion;
      }
      send := channel.generatedPatVersion == patVersion;
      if send {
        CopyPacket(channel.generatedPat, tsPacket);
        tsPacket[3] := tsPacket[3] / 16 * 16 + patContinuityCounter % 16;
      }
    }
  }

  lemma AvailableIsPopped(st: State, p: Packet)
    ensures Call(st, Some(p)).available ==> Call(st, Some(p)).popped.Some?
    ensures Call(st, Some(p)).popped == Head(st.queue)
  {
  }

  lemma PopShortens(st: State)
    ensures Call(st, None).popped.Some? <==> Call(st, None).available
    ensures Call(st, None).available ==> |Call(st, None).state.queue| < |st.queue|
  {
  }
}

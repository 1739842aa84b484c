/** The SDT rewriter: from the stored table to a packet that lists only the channel's service. */
module SdtRewrite {
  import opened Bytes
  import opened Memory
  import opened Sections
  import opened Rewriting
  import opened SdtSection

  method CopyDescriptor(tag: byte) returns (copy: bool)
    ensures copy == IsAllowed(tag)
  {
    var allowed := [0x47, 0x48, 0x50, 0x51, 0x53, 0x5D, 0x6E];
    for i := 0 to |allowed|
      invariant tag !in allowed[..i]
    {
      if tag == allowed[i] {
        return true;
      }
    }
    return false;
  }

  /** One descriptor: keep it or pass over it. */
  method AppendDescriptor(fullSdt: array<byte>, q: nat, tBuffer: array<byte>, fill: nat, ghost data: seq<byte>)
    returns (n: nat, newFill: nat)
    requires fullSdt != tBuffer && data == fullSdt[..] && Inside(data, q)
    requires fill <= tBuffer.Length && (IsAllowed(data[q]) ==> fill + DescriptorLength(data, q) <= tBuffer.Length)
    modifies tBuffer
    ensures n == DescriptorLength(data, q) && newFill == (if IsAllowed(data[q]) then fill + n else fill)
    ensures tBuffer[..newFill] == old(tBuffer[..fill]) + if IsAllowed(data[q]) then data[q..q + n] else []
  {
    hide IsAllowed;
    n := (fullSdt[q + 1] as nat + 2) % 256;
    assert n == DescriptorLength(data, q);
    newFill := fill;
    var copy := CopyDescriptor(fullSdt[q]);
    if copy {
      Memcpy(tBuffer, fill, fullSdt, q, n);
      assert fullSdt[q..q + n] == data[q..q + n];
      newFill := fill + n;
    }
  }

  /** Gather the kept descriptors of the loop that starts at base, behind the entry's header. */
  method CopyDescriptors(fullSdt: array<byte>, base: nat, descriptorsLength: nat, tBuffer: array<byte>,
    ghost data: seq<byte>)
    returns (loopLength: nat)
    requires fullSdt != tBuffer && fullSdt.Length == MAX_TS_SIZE && tBuffer.Length == MAX_TS_SIZE && data == fullSdt[..]
    requires SDT_DESCR_LEN <= base && Walkable(data, base, base + descriptorsLength)
    modifies tBuffer
    ensures SDT_DESCR_LEN + loopLength <= MAX_TS_SIZE
    ensures tBuffer[..SDT_DESCR_LEN + loopLength]
      == old(tBuffer[..SDT_DESCR_LEN]) + Filtered(data, base, base + descriptorsLength)
  {
    hide IsAllowed, Filtered, Walkable, DescriptorLength;
    ghost var head, end := tBuffer[..SDT_DESCR_LEN], base + descriptorsLength;
    var pos: nat := 0;
    var fill := SDT_DESCR_LEN;
    while pos < descriptorsLength
      invariant SDT_DESCR_LEN <= fill <= SDT_DESCR_LEN + pos && fill <= MAX_TS_SIZE
      invariant Walkable(data, base + pos, end)
      invariant tBuffer[..fill] + Filtered(data, base + pos, end) == head + Filtered(data, base, end)
      decreases descriptorsLength - pos
    {
      FilteredUnrolled(data, base + pos, end, tBuffer[..fill]);
      var n;
      n, fill := AppendDescriptor(fullSdt, base + pos, tBuffer, fill, data);
      pos := pos + n;
    }
    FilteredDone(data, base + pos, end);
    loopLength := fill - SDT_DESCR_LEN;
  }

  lemma FilteredDone(data: seq<byte>, q: nat, end: nat)
    requires end <= q
    ensures Walkable(data, q, end) && Filtered(data, q, end) == []
  {
  }

  lemma FilteredUnrolled(data: seq<byte>, q: nat, end: nat, so: seq<byte>)
    requires Walkable(data, q, end) && q < end
    ensures Inside(data, q) && 0 < DescriptorLength(data, q) && Walkable(data, q + DescriptorLength(data, q), end)
    ensures var n := DescriptorLength(data, q);
      so + Filtered(data, q, end)
      == so + (if IsAllowed(data[q]) then data[q..q + n] else []) + Filtered(data, q + n, end)
  {
    var n := DescriptorLength(data, q);
    FilteredFirst(data, q, end);
    hide *;
    Regrouped(so, if IsAllowed(data[q]) then data[q..q + n] else [], Filtered(data, q + n, end));
  }

  lemma FilteredFirst(data: seq<byte>, q: nat, end: nat)
    requires Walkable(data, q, end) && q < end
    ensures Inside(data, q) && 0 < DescriptorLength(data, q) && Walkable(data, q + DescriptorLength(data, q), end)
    ensures var n := DescriptorLength(data, q);
      Filtered(data, q, end) == (if IsAllowed(data[q]) then data[q..q + n] else []) + Filtered(data, q + n, end)
  {
    hide IsAllowed;
  }

  /** The entry's header with its loop length and flags, once the descriptors are known to fit. */
  method FillEntry(tBuffer: array<byte>, loopLength: nat, forceEit: bool, ghost data: seq<byte>, p: nat)
    requires tBuffer.Length == MAX_TS_SIZE && loopLength <= MAX_LOOP && p + SDT_DESCR_LEN <= |data|
    requires Walkable(data, p + SDT_DESCR_LEN, p + SDT_DESCR_LEN + LoopLength(data, p)) && loopLength == |Kept(data, p)|
    requires tBuffer[..SDT_DESCR_LEN + loopLength] == data[p..p + SDT_DESCR_LEN] + Kept(data, p)
    modifies tBuffer
    ensures tBuffer[..SDT_DESCR_LEN + loopLength] == Entry(data, p, forceEit)
  {
    hide Walkable, Kept, LoopLength;
    ghost var kept, e := Kept(data, p), data[p..p + SDT_DESCR_LEN];
    assert forall i :: 0 <= i < 5 ==> tBuffer[i] == tBuffer[..SDT_DESCR_LEN + loopLength][i] == e[i];
    tBuffer[4] := loopLength % 256;
    tBuffer[3] := tBuffer[3] / 16 * 16 + loopLength / 256 % 16;
    if forceEit {
      tBuffer[2] := tBuffer[2] / 4 * 4 + 3;
    }
    assert tBuffer[..5] == Entry(data, p, forceEit)[..5];
    assert tBuffer[..SDT_DESCR_LEN + loopLength] == tBuffer[..5] + kept;
  }

  /** The entry at p has the channel's service id: write its announcement if it fits. */
  method CopyService(fullSdt: array<byte>, p: nat, dest: array<byte>, forceEit: bool, ghost data: seq<byte>)
    returns (found: bool, pos: nat)
    requires fullSdt != dest && fullSdt.Length == MAX_TS_SIZE && dest.Length == TS_PACKET_SIZE && data == fullSdt[..]
    requires p + SDT_DESCR_LEN <= MAX_TS_SIZE
      && Walkable(data, p + SDT_DESCR_LEN, p + SDT_DESCR_LEN + LoopLength(data, p))
    modifies dest
    ensures found == (|Kept(data, p)| <= MAX_LOOP)
    ensures found ==>
      pos == 16 + |Entry(data, p, forceEit)| <= 184 && dest[..pos] == old(dest[..16]) + Entry(data, p, forceEit)
    ensures !found ==> pos == 16 && dest[..16] == old(dest[..16])
  {
    hide Walkable, Filtered;
    found, pos := false, 16;
    var tBuffer := new byte[MAX_TS_SIZE](_ => 0);
    Memcpy(tBuffer, 0, fullSdt, p, SDT_DESCR_LEN);
    assert tBuffer[..0] == [] && fullSdt[p..p + SDT_DESCR_LEN] == data[p..p + SDT_DESCR_LEN];
    var descriptorsLength := fullSdt[p + 3] as nat % 16 * 256 + fullSdt[p + 4] as nat;
    assert descriptorsLength == LoopLength(data, p);
    var loopLength := CopyDescriptors(fullSdt, p + SDT_DESCR_LEN, descriptorsLength, tBuffer, data);
    assert tBuffer[..SDT_DESCR_LEN + loopLength] == data[p..p + SDT_DESCR_LEN] + Kept(data, p);
    if pos + SDT_DESCR_LEN + loopLength + 4 + 1 <= TS_PACKET_SIZE {
      FillEntry(tBuffer, loopLength, forceEit, data, p);
      EntryLength(data, p, forceEit);
      Memcpy(dest, pos, tBuffer, 0, SDT_DESCR_LEN + loopLength);
      assert tBuffer[0..SDT_DESCR_LEN + loopLength] == Entry(data, p, forceEit);
      pos := pos + SDT_DESCR_LEN + loopLength;
      found := true;
    }
  }

  /** Go through the entries until the service is found. */
  method FindService(fullSdt: array<byte>, sectionLength: nat, serviceId: int, dest: array<byte>, forceEit: bool,
    ghost data: seq<byte>)
    returns (found: bool, pos: nat)
    requires fullSdt != dest && fullSdt.Length == MAX_TS_SIZE && dest.Length == TS_PACKET_SIZE && data == fullSdt[..]
    requires Searchable(data, SDT_LEN, sectionLength, serviceId)
    modifies dest
    ensures var r := Search(data, SDT_LEN, sectionLength, serviceId);
      && found == r.Some?
      && (found ==>
            pos == 16 + |Entry(data, r.value, forceEit)| <= 184
            && dest[..pos] == old(dest[..16]) + Entry(data, r.value, forceEit))
  {
    hide Walkable, LoopLength, Kept, Entry, ServiceId;
    found, pos := false, 16;
    var bufferPos := SDT_LEN;
    ghost var head := dest[..16];
    while bufferPos + SDT_DESCR_LEN < sectionLength && !found
      invariant !found ==>
        && Searchable(data, bufferPos, sectionLength, serviceId)
        && Search(data, bufferPos, sectionLength, serviceId) == Search(data, SDT_LEN, sectionLength, serviceId)
        && dest[..16] == head
      invariant found ==> var r := Search(data, SDT_LEN, sectionLength, serviceId);
        r.Some? && pos == 16 + |Entry(data, r.value, forceEit)| <= 184
          && dest[..pos] == head + Entry(data, r.value, forceEit)
      decreases sectionLength - bufferPos
    {
      var descriptorsLength := ReadLoopLength(fullSdt, bufferPos, data);
      var id := ReadServiceId(fullSdt, bufferPos, data);
      if serviceId == id {
        found, pos := CopyService(fullSdt, bufferPos, dest, forceEit, data);
      }
      bufferPos := bufferPos + SDT_DESCR_LEN + descriptorsLength;
    }
  }

  /** Behind the copied headers: the service's entry, the length, the checksum and the stuffing. */
  method BuildPacket(fullSdt: array<byte>, serviceId: int, dest: array<byte>, forceEit: bool, ghost ts: seq<byte>,
    ghost data: seq<byte>)
    returns (found: bool, ghost section: seq<byte>)
    requires fullSdt != dest && fullSdt.Length == MAX_TS_SIZE && dest.Length == TS_PACKET_SIZE && data == fullSdt[..]
    requires Searchable(data, SDT_LEN, SectionLength(data), serviceId)
    requires |ts| == 5 && dest[..16] == ts + data[..SDT_LEN]
    modifies dest
    ensures found == Search(data, SDT_LEN, SectionLength(data), serviceId).Some?
    ensures found ==> CarriesOne(dest[..], ts, section) && Generated(section, data, serviceId, forceEit)
  {
    hide Walkable, Searchable, Search, Kept, Entry, LoopLength, Sealed, CarriesOne;
    var sectionLength := fullSdt[1] as int % 16 * 256 + fullSdt[2] as int;
    section := [];
    var pos;
    found, pos := FindService(fullSdt, sectionLength, serviceId, dest, forceEit, data);
    if found {
      ghost var p := Search(data, SDT_LEN, SectionLength(data), serviceId).value;
      EntryLength(data, p, forceEit);
      assert dest[..pos] == ts + SdtBody(data, p, forceEit);
      section := Finish(dest, pos, ts, SdtBody(data, p, forceEit));
    }
  }

  method ReadLoopLength(fullSdt: array<byte>, p: nat, ghost data: seq<byte>) returns (n: nat)
    requires p + SDT_DESCR_LEN <= fullSdt.Length && data == fullSdt[..]
    ensures n == LoopLength(data, p)
  {
    n := fullSdt[p + 3] as nat % 16 * 256 + fullSdt[p + 4] as nat;
  }

  method ReadServiceId(fullSdt: array<byte>, p: nat, ghost data: seq<byte>) returns (id: nat)
    requires p + SDT_DESCR_LEN <= fullSdt.Length && data == fullSdt[..]
    ensures id == ServiceId(data, p)
  {
    id := fullSdt[p] as nat * 256 + fullSdt[p + 1] as nat;
  }

  // ---------- the channel and the stored table ----------

  class Channel {
    const serviceId: int
    const generatedSdt: array<byte>
    var sdtRewriteSkip: bool
    var generatedSdtVersion: int

    constructor (serviceId: int)
      ensures this.serviceId == serviceId && fresh(generatedSdt) && generatedSdt.Length == TS_PACKET_SIZE
      ensures !sdtRewriteSkip && generatedSdtVersion == -1
    {
      this.serviceId := serviceId;
      generatedSdt := new byte[TS_PACKET_SIZE](_ => 0);
      sdtRewriteSkip, generatedSdtVersion := false, -1;
    }
  }

  class Rewriter {
    const fullSdt: array<byte>
    const forceEit: bool
    const sectionNumbersSeen: array<bool>
    var lastSectionNumber: byte
    var sdtVersion: int
    var sdtNeedsUpdate: bool
    var sdtNeedOthers: bool

    ghost predicate Valid()
    {
      fullSdt.Length == MAX_TS_SIZE && sectionNumbersSeen.Length == 256
    }

    constructor (forceEit: bool)
      ensures Valid() && this.forceEit == forceEit && fresh(fullSdt) && fresh(sectionNumbersSeen)
      ensures sdtNeedsUpdate && !sdtNeedOthers && sdtVersion == -1
    {
      this.forceEit := forceEit;
      fullSdt := new byte[MAX_TS_SIZE](_ => 0);
      sectionNumbersSeen := new bool[256](_ => false);
      lastSectionNumber, sdtVersion, sdtNeedsUpdate, sdtNeedOthers := 0, -1, true, false;
    }

    method AllSectionsSeen() returns (allSeen: bool)
      requires Valid()
      ensures allSeen <==> forall i :: 0 <= i <= lastSectionNumber as int ==> sectionNumbersSeen[i]
    {
      allSeen := true;
      var i := 0;
      while i <= lastSectionNumber as int
        invariant 0 <= i <= lastSectionNumber as int + 1
        invariant allSeen <==> forall j :: 0 <= j < i ==> sectionNumbersSeen[j]
      {
        if !sectionNumbersSeen[i] {
          allSeen := false;
        }
        i := i + 1;
      }
    }

    /** The section number of the stored table was seen. */
    predicate EverythingSeen()
      requires Valid()
      reads this, sectionNumbersSeen
    {
      forall i :: 0 <= i <= lastSectionNumber as int ==> sectionNumbersSeen[i]
    }

    /**
     Generate the channel's packet.  The stored table is read with its header as this call leaves
     it; the search must stay in the buffer, which the code takes for granted.
     */
    method ChannelRewrite(channel: Channel, buf: array<byte>) returns (ok: bool, ghost section: seq<byte>)
      requires Valid() && buf.Length == TS_PACKET_SIZE && channel.generatedSdt.Length == TS_PACKET_SIZE
      requires buf != fullSdt && buf != channel.generatedSdt && fullSdt != channel.generatedSdt
      requires Searchable(OnlySection(fullSdt[..]), SDT_LEN, SectionLength(OnlySection(fullSdt[..])), channel.serviceId)
      modifies this`sdtNeedsUpdate, this`sdtNeedOthers, fullSdt, buf, channel`sdtRewriteSkip,
        channel`generatedSdtVersion, channel.generatedSdt
      ensures channel.serviceId == 0 ==> !ok && channel.sdtRewriteSkip
      ensures channel.serviceId != 0 ==> fullSdt[..] == OnlySection(old(fullSdt[..]))
      ensures channel.serviceId != 0 ==>
        var data := OnlySection(old(fullSdt[..]));
        var r := Search(data, SDT_LEN, SectionLength(data), channel.serviceId);
        if data[0] != SDT_TABLE then !ok && sdtNeedsUpdate && channel.generatedSdt[..] == old(channel.generatedSdt[..])
        else if r.Some? then
          && ok && !channel.sdtRewriteSkip && channel.generatedSdtVersion == sdtVersion
          && CarriesOne(channel.generatedSdt[..], TsHeader(old(buf[..])), section)
          && Generated(section, data, channel.serviceId, forceEit)
        else
          && channel.generatedSdt[..] == old(channel.generatedSdt[..])
          && ok == old(EverythingSeen())
          && (ok ==> channel.sdtRewriteSkip && channel.generatedSdtVersion == sdtVersion)
          && (!ok ==> sdtNeedOthers && channel.generatedSdtVersion == old(channel.generatedSdtVersion))
    {
      ok, section := false, [];
      if channel.serviceId == 0 {
        channel.sdtRewriteSkip := true;
        return;
      }
      var dest := new byte[TS_PACKET_SIZE](_ => 0);
      ghost var ts := TsHeader(buf[..]);
      CopyTsHeader(buf, dest);
      CopyTableHeader(fullSdt, SDT_LEN, dest);
      ghost var data := fullSdt[..];
      if fullSdt[0] != SDT_TABLE {
        sdtNeedsUpdate := true;
        return;
      }
      HeaderPrefix(data, old(fullSdt[..]));
      var found;
      found, section := BuildPacket(fullSdt, channel.serviceId, dest, forceEit, ts, data);
      if found {
        CopyPacket(dest, channel.generatedSdt);
        channel.sdtRewriteSkip := false;
      } else {
        var allSeen := AllSectionsSeen();
        if allSeen {
          channel.sdtRewriteSkip := true;
        } else {
          sdtNeedOthers := true;
          return;
        }
      }
      channel.generatedSdtVersion := sdtVersion;
      ok := true;
    }
  }

  lemma HeaderPrefix(data: seq<byte>, before: seq<byte>)
    requires |before| == MAX_TS_SIZE && data == OnlySection(before)
    ensures data[..SDT_LEN] == OnlySection(before[..SDT_LEN])
  {
  }
}

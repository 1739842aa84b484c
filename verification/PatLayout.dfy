/** The Program Association Table as it is written (ISO/IEC 13818-1 section 2.4.4.3), and what becomes of it. */
module PatLayout {
  import opened Bytes
  import opened Sections
  import opened Demux
  import opened Layout
  import opened Rewriting
  import opened PatRewrite
  import PatTracking
  import PatGlobal

  // ---------- writing a table ----------

  /** A program number and the PID of its PMT. */
  datatype RawProgram = Announced(number: nat, pid: nat)

  type Announcement = a: RawProgram | a.number < 65536 && a.pid < 8192 witness Announced(0, 0)

  /** Number and PID, with three reserved bits in between. */
  function Entry(a: Announcement): Program
  {
    [a.number / 256, a.number % 256, 0xe0 + a.pid / 256, a.pid % 256]
  }

  function Entries(announced: seq<Announcement>): (ps: seq<Program>)
    ensures |ps| == |announced| && forall i :: 0 <= i < |announced| ==> ps[i] == Entry(announced[i])
  {
    seq(|announced|, i requires 0 <= i < |announced| => Entry(announced[i]))
  }

  /** Both fields are read as they were written. */
  lemma EntryRead(a: Announcement)
    ensures Number(Entry(a)) == a.number && NetworkPid(Entry(a)) == a.pid
  {
    Thirteen(a.pid);
  }

  lemma Thirteen(pid: nat)
    requires pid < 8192
    ensures pid / 256 < 32 && (0xe0 + pid / 256) % 32 == pid / 256
  {
  }

  datatype Head = Head(tsId: nat, version: nat, current: bool, number: byte, last: byte)

  type PatHead = h: Head | h.tsId < 65536 && h.version < 32 witness Head(0, 0, false, 0, 0)

  /** A table's bytes up to its checksum. */
  function Table(h: PatHead, announced: seq<Announcement>): seq<byte>
    requires |announced| <= 1000
  {
    var length := 9 + 4 * |announced|;
    [0, 0xb0 + length / 256, length % 256, h.tsId / 256, h.tsId % 256,
     0xc0 + h.version * 2 + Flag(h.current), h.number, h.last] + Flatten(Entries(announced))
  }

  lemma TableRead(data: seq<byte>, h: PatHead, announced: seq<Announcement>)
    requires |announced| <= 1000 && |data| == MAX_TS_SIZE && Table(h, announced) <= data
    ensures SectionLength(data) == 9 + 4 * |announced| && ProgramCount(SectionLength(data)) == |announced|
    ensures Programs(data, |announced|) == Entries(announced)
    ensures data[0] == 0 && data[1] / 16 == 11
    ensures data[3] == h.tsId / 256 && data[4] == h.tsId % 256 && data[5] == 0xc0 + h.version * 2 + Flag(h.current)
    ensures data[6] == h.number && data[7] == h.last
  {
    hide Flatten, Entry;
    var t, es := Table(h, announced), Entries(announced);
    FlattenPrograms(es);
    assert forall i :: 0 <= i < 8 ==> data[i] == t[i];
    forall k | 0 <= k < |es| ensures ProgramAt(data, k) == es[k] {
      assert ProgramAt(data, k) == t[8 + 4 * k..12 + 4 * k] == Flatten(es)[4 * k..4 * k + 4];
    }
  }

  // ---------- rewriting it ----------

  /** The channel carries the program: a real one, of the right service, with a PMT PID of its own. */
  predicate Wanted(a: Announcement, pids: seq<int>, serviceId: int)
  {
    a.number != 0 && (serviceId == 0 || serviceId == a.number) && a.pid in pids
  }

  function Own(announced: seq<Announcement>, pids: seq<int>, serviceId: int): (own: seq<Announcement>)
    ensures |own| <= |announced|
  {
    if announced == [] then []
    else
      var a := announced[|announced| - 1];
      Own(announced[..|announced| - 1], pids, serviceId) + if Wanted(a, pids, serviceId) then [a] else []
  }

  lemma EntriesSnoc(announced: seq<Announcement>, a: Announcement)
    ensures Entries(announced + [a]) == Entries(announced) + [Entry(a)]
  {
  }

  lemma {:induction false} ChosenAreOwn(announced: seq<Announcement>, pids: seq<int>, serviceId: int)
    ensures Chosen(Entries(announced), pids, serviceId) == Entries(Own(announced, pids, serviceId))
    decreases |announced|
  {
    if announced != [] {
      hide Entry, Number, NetworkPid;
      var past, a := announced[..|announced| - 1], announced[|announced| - 1];
      ChosenAreOwn(past, pids, serviceId);
      EntryRead(a);
      LastApart(announced);
      EntriesSnoc(past, a);
      EntriesSnoc(Own(past, pids, serviceId), a);
      assert Entries(announced)[..|past|] == Entries(past);
    }
  }

  lemma FirstEntries(announced: seq<Announcement>, n: nat)
    ensures First(Entries(announced), n) == Entries(First(announced, n))
  {
  }

  /**
   A stored table written from a list of programs is rewritten to the table written from the channel's own
   programs, as many as fit: the same transport stream and version, current, the only section.
   */
  lemma RewrittenTable(section: seq<byte>, data: seq<byte>, h: PatHead, announced: seq<Announcement>, pids: seq<int>,
    serviceId: int)
    requires |data| == MAX_TS_SIZE && |announced| <= 1000 && Table(h, announced) <= data && PatRewrite.Distinct(pids)
    requires Sealed(section, PatBody(data, KeptPrograms(data, pids, serviceId)))
    ensures var own := First(Own(announced, pids, serviceId), MAX_PROGRAMS);
      && IsSection(section) && |section| == 12 + 4 * |own|
      && section[..|section| - 4] == Table(Head(h.tsId, h.version, true, 0, 0), own)
  {
    TableRead(data, h, announced);
    KeptAreOwn(data, h, announced, pids, serviceId);
    hide *;
    SealedTable(section, data, h, First(Own(announced, pids, serviceId), MAX_PROGRAMS));
  }

  lemma SealedTable(section: seq<byte>, data: seq<byte>, h: PatHead, own: seq<Announcement>)
    requires |data| >= 8 && |own| <= MAX_PROGRAMS && Sealed(section, PatBody(data, Entries(own)))
    requires data[0] == 0 && data[1] / 16 == 11 && data[3] == h.tsId / 256 && data[4] == h.tsId % 256
    requires data[5] == 0xc0 + h.version * 2 + Flag(h.current)
    ensures IsSection(section) && |section| == 12 + 4 * |own|
    ensures section[..|section| - 4] == Table(Head(h.tsId, h.version, true, 0, 0), own)
  {
    hide Flatten, WithLength, Sealed, PatBody, Table, IsSection, Programs, Entry;
    var kept := Entries(own);
    AnnouncedSection(section, data, kept);
    BodyIsTable(data, h, kept);
    SealedPrefix(section, PatBody(data, kept));
    TableOf(Head(h.tsId, h.version, true, 0, 0), own);
  }

  lemma TableOf(h: PatHead, announced: seq<Announcement>)
    requires |announced| <= 1000
    ensures var length := 9 + 4 * |announced|;
      Table(h, announced)
      == [0, 0xb0 + length / 256, length % 256, h.tsId / 256, h.tsId % 256,
          0xc0 + h.version * 2 + Flag(h.current), h.number, h.last]
        + Flatten(Entries(announced))
    ensures |Entries(announced)| == |announced| && Flag(true) == 1
  {
    hide Entries, Flatten;
  }

  lemma KeptAreOwn(data: seq<byte>, h: PatHead, announced: seq<Announcement>, pids: seq<int>, serviceId: int)
    requires |data| == MAX_TS_SIZE && |announced| <= 1000 && Table(h, announced) <= data && PatRewrite.Distinct(pids)
    ensures KeptPrograms(data, pids, serviceId) == Entries(First(Own(announced, pids, serviceId), MAX_PROGRAMS))
    ensures |First(Own(announced, pids, serviceId), MAX_PROGRAMS)| <= MAX_PROGRAMS
  {
    TableRead(data, h, announced);
    hide Table, Programs, Kept, Chosen, Own, Entries, SectionLength, ProgramCount;
    KeptIsChosen(Entries(announced), pids, serviceId);
    ChosenAreOwn(announced, pids, serviceId);
    FirstEntries(Own(announced, pids, serviceId), MAX_PROGRAMS);
  }

  lemma SealedPrefix(section: seq<byte>, body: seq<byte>)
    requires Sealed(section, body)
    ensures |body| >= 3 && |section| >= 4 && section[..|section| - 4] == WithLength(body, |body| + 1)
  {
    hide WithLength;
  }

  lemma BodyIsTable(data: seq<byte>, h: PatHead, kept: seq<Program>)
    requires |data| >= 8 && |kept| <= MAX_PROGRAMS
    requires data[0] == 0 && data[1] / 16 == 11 && data[3] == h.tsId / 256 && data[4] == h.tsId % 256
    requires data[5] == 0xc0 + h.version * 2 + Flag(h.current)
    ensures var length := 9 + 4 * |kept|;
      |PatBody(data, kept)| >= 3
      && WithLength(PatBody(data, kept), |PatBody(data, kept)| + 1)
         == [0, 0xb0 + length / 256, length % 256, h.tsId / 256, h.tsId % 256, 0xc0 + h.version * 2 + 1, 0, 0]
           + Flatten(kept)
  {
    hide Flatten, OnlySection;
    FlattenPrograms(kept);
    CurrentHead(data, h);
    var head, length := OnlySection(data[..PAT_LEN]), 9 + 4 * |kept|;
    var body := head + Flatten(kept);
    assert |body| + 1 == length && length < 256;
    assert body[3..] == head[3..] + Flatten(kept);
    assert WithLength(body, length) == [0, 0xb0, length] + (head[3..] + Flatten(kept));
    Regrouped([0, 0xb0, length], head[3..], Flatten(kept));
  }

  lemma CurrentHead(data: seq<byte>, h: PatHead)
    requires |data| >= 8 && data[0] == 0 && data[1] / 16 == 11 && data[3] == h.tsId / 256 && data[4] == h.tsId % 256
    requires data[5] == 0xc0 + h.version * 2 + Flag(h.current)
    ensures var head := OnlySection(data[..PAT_LEN]);
      && |head| == 8 && head[0] == 0 && head[1] / 16 == 11
      && head[3..] == [h.tsId / 256, h.tsId % 256, 0xc0 + h.version * 2 + 1, 0, 0]
  {
    Odd(0xc0 + h.version * 2, Flag(h.current));
  }

  lemma Odd(n: nat, flag: nat)
    requires n % 2 == 0 && flag <= 1
    ensures (n + flag) / 2 * 2 + 1 == n + 1
  {
  }

  // ---------- the packet it is sent in ----------

  /** A generated packet keeps PID, counter and all other header fields, but for the start flag and the pointer. */
  lemma HeaderIsKept(p: Packet, f: Fields, section: seq<byte>)
    requires CarriesOne(p, TsHeader(Packed(f)), section)
    ensures p[..5] == FixedHeader(f.(start := true)) + [0] && Pid(p) == f.pid && ContinuityCounter(p) == f.cc
    ensures f.control < 2 ==>
      p == Packed(f.(start := true, payload := [0] + section + Repeat(0xff, 183 - |section|)))
  {
    HeaderFrom(f);
    FieldsRead(f.(start := true));
    WrittenParts(f.(start := true));
    hide TsHeader, Packed, FixedHeader, Pid, ContinuityCounter;
    CarriedHeader(p, TsHeader(Packed(f)), section);
    SameHeader(p, Packed(f.(start := true)), FixedHeader(f.(start := true)));
    if f.control < 2 {
      var payload := [0] + section + Repeat(0xff, 183 - |section|);
      PackedPlain(f.(start := true, payload := payload));
      SameFixed(f, payload);
      Regrouped(FixedHeader(f.(start := true)), [0] + section, Repeat(0xff, 183 - |section|));
      Regrouped(FixedHeader(f.(start := true)), [0], section);
    }
  }

  lemma CarriedHeader(p: Packet, h: seq<byte>, section: seq<byte>)
    requires CarriesOne(p, h, section)
    ensures p[..5] == h
  {
  }

  lemma SameFixed(f: Fields, payload: seq<byte>)
    requires |payload| == |f.payload|
    ensures FixedHeader(f.(start := true, payload := payload)) == FixedHeader(f.(start := true))
  {
  }

  lemma HeaderFrom(f: Fields)
    ensures TsHeader(Packed(f)) == FixedHeader(f.(start := true)) + [0]
  {
    WrittenParts(f);
    StartSet(f);
    hide Packed;
  }

  lemma SameHeader(p: Packet, q: Packet, h: seq<byte>)
    requires |h| == 4 && p[..5] == h + [0] && q[0] == h[0] && q[1] == h[1] && q[2] == h[2] && q[3] == h[3]
    ensures Pid(p) == Pid(q) && ContinuityCounter(p) == ContinuityCounter(q)
  {
    assert p[1] == p[..5][1] && p[2] == p[..5][2] && p[3] == p[..5][3];
  }

  lemma StartSet(f: Fields)
    ensures var b := FixedHeader(f)[1];
      (if b / 64 % 2 == 1 then b else b + 64) == FixedHeader(f.(start := true))[1]
  {
    SecondByte(f.error, f.start, f.priority, f.pid / 256);
  }

  lemma PackedPlain(f: Fields)
    requires f.control < 2
    ensures Packed(f) == FixedHeader(f) + f.payload
  {
    hide FixedHeader;
    assert AdaptationField(f) == [];
  }

  // ---------- following it ----------

  /** The header fields that decide what is done with a stored section. */
  lemma HeadRead(data: seq<byte>, h: PatHead, announced: seq<Announcement>)
    requires |data| == MAX_TS_SIZE && |announced| <= 1000 && Table(h, announced) <= data
    ensures PatTracking.Version(data) == h.version && PatTracking.SectionNumber(data) == h.number as nat
    ensures PatTracking.Applicable(data) == h.current && PatTracking.Listing(data) == Entries(announced)
    ensures forall st :: PatTracking.ReadProgramsOf(st, data).tsId == h.tsId
  {
    hide PatTracking.UpdateAll, Entries;
    TableRead(data, h, announced);
  }

  /** The numbers of the programs in a list, network information apart. */
  function NumbersIn(announced: seq<Announcement>): set<int>
  {
    set a | a in announced && a.number != 0 :: a.number
  }

  lemma IdsAreNumbers(announced: seq<Announcement>)
    ensures PatTracking.Ids(Entries(announced)) == NumbersIn(announced)
  {
    hide Entry, Number;
    forall a | a in announced ensures Number(Entry(a)) == a.number {
      EntryRead(a);
    }
    forall id | id in NumbersIn(announced) ensures id in PatTracking.Ids(Entries(announced)) {
      var a :| a in announced && a.number != 0 && a.number == id;
      var k :| 0 <= k < |announced| && announced[k] == a;
      assert Entries(announced)[k] == Entry(a);
    }
  }

  /** Every program of a written table has a channel then, unless there are as many as there may be. */
  lemma AnnouncedAreKnown(channels: seq<PatTracking.Channel>, announced: seq<Announcement>)
    requires PatTracking.OwnIds(channels) && |channels| <= PatTracking.MAX_CHANNELS
    ensures var r := PatTracking.UpdateAll(channels, Entries(announced));
      && PatTracking.OwnIds(r) && PatTracking.Grows(channels, r) && |r| <= PatTracking.MAX_CHANNELS
      && forall a :: a in announced && a.number != 0 ==>
           PatTracking.Has(r, a.number) || |r| >= PatTracking.MAX_CHANNELS - 1
  {
    hide Entry, Number, PatTracking.UpdateAll, PatTracking.Has, PatTracking.OwnIds, PatTracking.Grows;
    var ps := Entries(announced);
    PatTracking.UpdateAllKeeps(channels, ps);
    forall a | a in announced && a.number != 0
      ensures PatTracking.Has(PatTracking.UpdateAll(channels, ps), a.number)
        || |PatTracking.UpdateAll(channels, ps)| >= PatTracking.MAX_CHANNELS - 1
    {
      var k :| 0 <= k < |announced| && announced[k] == a;
      EntryRead(a);
      assert ps[k] == Entry(a);
    }
  }

  /** A program nobody has yet gets a channel, if there may be one more: not ready, asked for at its PMT PID. */
  lemma NewProgram(channels: seq<PatTracking.Channel>, a: Announcement)
    requires forall i :: 0 <= i < |channels| ==> channels[i].serviceId != a.number
    ensures PatTracking.UpdateChan(channels, Entry(a))
         == if |channels| >= 127 then channels
            else channels + [PatTracking.Channel(a.number, true, PatTracking.NOT_READY, a.pid, false, [a.pid], -1)]
  {
    EntryRead(a);
    hide Entry, Number, NetworkPid;
    assert [] + [a.pid] == [a.pid];
  }

  /** The last channel with the number is listed again: one that was marked is ready, a removed one starts over. */
  lemma KnownProgram(channels: seq<PatTracking.Channel>, i: nat, a: Announcement)
    requires i < |channels| && channels[i].serviceId == a.number
    requires forall j :: i < j < |channels| ==> channels[j].serviceId != a.number
    ensures var c, r := channels[i], PatTracking.UpdateChan(channels, Entry(a));
      && |r| == |channels| && (forall j :: 0 <= j < |channels| && j != i ==> r[j] == channels[j])
      && r[i].serviceId == a.number && r[i].detected == c.detected && r[i].pmtUser == c.pmtUser
      && r[i].pmtVersion == -1
      && (c.ready == PatTracking.READY_EXISTING ==> r[i].ready == PatTracking.READY)
      && (c.ready == PatTracking.REMOVED ==> r[i].ready == PatTracking.NOT_READY)
      && (c.ready != PatTracking.READY_EXISTING && c.ready != PatTracking.REMOVED ==> r[i].ready == c.ready)
      && r[i].pmtPid == (if c.pmtUser then c.pmtPid else a.pid)
      && (!c.pmtUser ==> r[i].pids == if a.pid in c.pids then c.pids else c.pids + [a.pid])
      && (c.pmtUser ==>
            var added := c.ready == PatTracking.REMOVED && c.pmtPid !in c.pids && |c.pids| < 127;
            r[i].pids == if added then c.pids + [c.pmtPid] else c.pids)
  {
    EntryRead(a);
    hide Entry, Number, NetworkPid;
    assert PatTracking.LastWith(channels, a.number) == Some(i);
  }

  /** Setting the counter of a packet changes nothing else. */
  lemma CounterWritten(f: Fields, cc: nat)
    ensures PatGlobal.WithCounter(Packed(f), cc) == Packed(f.(cc := cc % 16))
  {
    var g, o := f.(cc := cc % 16), 188 - |f.payload|;
    FourthByte(f.scrambling, f.control, f.cc);
    WrittenParts(f);
    SameAdaptation(f, g);
    CounterByte(f, cc % 16);
    hide Packed, AdaptationField, FixedHeader;
    var p := Packed(f);
    var q := PatGlobal.WithCounter(p, cc);
    assert q[4..o] == p[..o][4..] && q[o..] == p[o..];
    assert q[..4] == p[..o][..4][3 := q[3]];
    ThreeParts(q, o, g);
  }

  lemma CounterByte(f: Fields, cc: nat)
    requires cc < 16
    ensures FixedHeader(f.(cc := cc)) == FixedHeader(f)[3 := f.scrambling * 64 + f.control * 16 + cc]
  {
  }

  /** A table is taken over if and only if it is current, and then with its version. */
  lemma TableLearned(k: PatGlobal.Knowledge, d: PatGlobal.Image, h: PatHead, announced: seq<Announcement>)
    requires |announced| <= 1000 && Table(h, announced) <= d
    ensures PatGlobal.Learn(k, d) == if h.current then PatGlobal.Knowledge(h.version, false, true) else k
  {
    hide Entries;
    TableRead(d, h, announced);
  }

  /** As many programs as leave a byte of the packet free: headers and checksum take 17. */
  lemma MostPrograms(n: nat)
    ensures n <= MAX_PROGRAMS <==> 5 + 8 + 4 * n + 4 < 188
  {
  }
}

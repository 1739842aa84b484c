/** The rewritten Program Association Table: one packet that announces only the channel's programs. */
module PatRewrite {
  import opened Bytes
  import opened Crc32
  import opened Memory
  import opened Sections
  import opened Demux
  import opened Rewriting

  const PAT_LEN: nat := 8
  const PAT_PROG_LEN: nat := 4
  /** As many as fit a packet with both headers and the CRC. */
  const MAX_PROGRAMS: nat := 42

  // ---------- program lists ----------

  type Program = e: seq<byte> | |e| == 4 witness Repeat(0, 4)

  function Number(e: Program): nat { e[0] as nat * 256 + e[1] as nat }

  function NetworkPid(e: Program): nat { e[2] as nat % 32 * 256 + e[3] as nat }

  /** How many programs a section with this length field lists. */
  function ProgramCount(sectionLength: nat): nat
  {
    if sectionLength < 9 then 0 else (sectionLength - 9) / 4
  }

  function ProgramAt(data: seq<byte>, k: nat): Program
    requires 12 + 4 * k <= |data|
  {
    data[8 + 4 * k..12 + 4 * k]
  }

  function Programs(data: seq<byte>, n: nat): (ps: seq<Program>)
    requires 8 + 4 * n <= |data|
    ensures |ps| == n && forall k :: 0 <= k < n ==> ps[k] == ProgramAt(data, k)
  {
    seq(n, k requires 0 <= k < n => ProgramAt(data, k))
  }

  /** Does the channel carry the program: a real program, the right service, a PMT PID of its own? */
  predicate Carried(e: Program, pids: seq<int>, serviceId: int)
  {
    Number(e) != 0 && (serviceId == 0 || serviceId == Number(e)) && NetworkPid(e) in pids
  }

  function Chosen(ps: seq<Program>, pids: seq<int>, serviceId: int): seq<Program>
  {
    if ps == [] then []
    else
      var e := ps[|ps| - 1];
      Chosen(ps[..|ps| - 1], pids, serviceId) + if Carried(e, pids, serviceId) then [e] else []
  }

  function First<T>(s: seq<T>, n: nat): (r: seq<T>)
    ensures |r| == Min(|s|, n)
  {
    s[..Min(|s|, n)]
  }

  // ---------- what the code keeps: a program once for each of its PIDs in the list ----------

  function Occurrences(pids: seq<int>, pid: int): nat
  {
    if pids == [] then 0
    else Occurrences(pids[..|pids| - 1], pid) + if pids[|pids| - 1] == pid then 1 else 0
  }

  lemma {:induction false} OccurrencesCount(pids: seq<int>, pid: int)
    ensures Occurrences(pids, pid) == multiset(pids)[pid]
  {
    if pids != [] {
      OccurrencesCount(pids[..|pids| - 1], pid);
      assert pids == pids[..|pids| - 1] + [pids[|pids| - 1]];
    }
  }

  function Copies(e: Program, pids: seq<int>, serviceId: int): nat
  {
    if Number(e) != 0 && (serviceId == 0 || serviceId == Number(e)) then Occurrences(pids, NetworkPid(e)) else 0
  }

  function Kept(ps: seq<Program>, pids: seq<int>, serviceId: int): seq<Program>
  {
    if ps == [] then []
    else
      var e := ps[|ps| - 1];
      Kept(ps[..|ps| - 1], pids, serviceId) + Repeat(e, Copies(e, pids, serviceId))
  }

  predicate Distinct(pids: seq<int>)
  {
    forall i, j :: 0 <= i < j < |pids| ==> pids[i] != pids[j]
  }

  lemma {:induction false} DistinctOccurrences(pids: seq<int>, pid: int)
    requires Distinct(pids)
    ensures Occurrences(pids, pid) == if pid in pids then 1 else 0
  {
    if pids != [] {
      var n := |pids| - 1;
      DistinctOccurrences(pids[..n], pid);
      assert pids == pids[..n] + [pids[n]];
    }
  }

  /** With a PID list free of duplicates, exactly the carried programs are kept, in order. */
  lemma {:induction false} KeptIsChosen(ps: seq<Program>, pids: seq<int>, serviceId: int)
    requires Distinct(pids)
    ensures Kept(ps, pids, serviceId) == Chosen(ps, pids, serviceId)
  {
    if ps != [] {
      KeptIsChosen(ps[..|ps| - 1], pids, serviceId);
      DistinctOccurrences(pids, NetworkPid(ps[|ps| - 1]));
    }
  }

  /** The programs of the stored table that are announced to the channel. */
  function KeptPrograms(data: seq<byte>, pids: seq<int>, serviceId: int): (kept: seq<Program>)
    requires |data| == MAX_TS_SIZE
    ensures |kept| <= MAX_PROGRAMS
  {
    First(Kept(Programs(data, ProgramCount(SectionLength(data))), pids, serviceId), MAX_PROGRAMS)
  }

  lemma FirstSnoc<T>(s: seq<T>, x: T, n: nat)
    ensures First(s + [x], n) == if |First(s, n)| < n then First(s, n) + [x] else First(s, n)
  {
  }

  lemma RepeatSnoc<T>(s: seq<T>, x: T, n: nat)
    ensures s + Repeat(x, n + 1) == s + Repeat(x, n) + [x]
    ensures s + Repeat(x, 0) == s
  {
  }

  // ---------- the packet ----------

  /** The table's header and the kept programs, before length and checksum. */
  function PatBody(data: seq<byte>, kept: seq<Program>): (b: seq<byte>)
    requires |data| >= PAT_LEN
  {
    OnlySection(data[..PAT_LEN]) + Flatten(kept)
  }

  lemma {:induction false} FlattenPrograms(ps: seq<Program>)
    ensures |Flatten(ps)| == 4 * |ps|
    ensures forall k :: 0 <= k < |ps| ==> Flatten(ps)[4 * k..4 * k + 4] == ps[k]
  {
    if ps != [] {
      FlattenPrograms(ps[1..]);
      forall k | 0 <= k < |ps| ensures Flatten(ps)[4 * k..4 * k + 4] == ps[k] {
        if k > 0 {
          assert Flatten(ps)[4 * k..4 * k + 4] == Flatten(ps[1..])[4 * (k - 1)..4 * (k - 1) + 4];
        }
      }
    }
  }

  /** The generated section is well formed, passes the check, and lists exactly the kept programs. */
  lemma AnnouncedSection(section: seq<byte>, data: seq<byte>, kept: seq<Program>)
    requires |data| >= PAT_LEN && |kept| <= MAX_PROGRAMS && Sealed(section, PatBody(data, kept))
    ensures IsSection(section) && |section| == 12 + 4 * |kept|
    ensures ProgramCount(SectionLength(section)) == |kept| && Programs(section, |kept|) == kept
  {
    hide Crc, Flatten, Sealed, WithLength;
    var body, n := PatBody(data, kept), |kept|;
    FlattenPrograms(kept);
    SealedIsSection(section, body);
    forall k | 0 <= k < n ensures ProgramAt(section, k) == kept[k] {
      SealedTail(section, body, 8 + 4 * k, 12 + 4 * k);
      assert body[8 + 4 * k..12 + 4 * k] == Flatten(kept)[4 * k..4 * k + 4];
    }
    assert FullLength(section) == 12 + 4 * n;
  }

  /** The reassembler gets exactly the new section if and only if the reused header has no adaptation field. */
  lemma RewrittenIsReassembled(p: Packet, buf: seq<byte>, section: seq<byte>, data: seq<byte>, kept: seq<Program>)
    requires |buf| == TS_PACKET_SIZE && |data| >= PAT_LEN && |kept| <= MAX_PROGRAMS
    requires Sealed(section, PatBody(data, kept)) && CarriesOne(p, TsHeader(buf), section)
    ensures (forall partial :: Feed(partial, p) == Outcome(Idle, [section])) <==> Afc(buf) < 2
  {
    FlattenPrograms(kept);
    OneReassembled(p, buf, section, PatBody(data, kept));
  }

  // ---------- the rewriter ----------

  /** Keep the program found at delta once for each time its PID is in the list, while there is room. */
  method KeepProgram(data: array<byte>, delta: nat, dest: array<byte>, pos: nat, pids: seq<int>, e: Program,
                     ghost head: seq<byte>, ghost all: seq<Program>) returns (newPos: nat)
    requires data != dest && delta + 4 <= data.Length && dest.Length == TS_PACKET_SIZE && e == data[delta..delta + 4]
    requires |head| == 13 && pos == 13 + 4 * |First(all, MAX_PROGRAMS)|
    requires dest[..pos] == head + Flatten(First(all, MAX_PROGRAMS))
    modifies dest
    ensures var now := First(all + Repeat(e, Occurrences(pids, NetworkPid(e))), MAX_PROGRAMS);
      newPos == 13 + 4 * |now| && dest[..newPos] == head + Flatten(now)
  {
    hide Flatten, NetworkPid, First;
    newPos := pos;
    RepeatSnoc(all, e, 0);
    ghost var found := 0;
    var i := 0;
    while i < |pids|
      invariant 0 <= i <= |pids| && found == Occurrences(pids[..i], NetworkPid(e))
      invariant newPos == 13 + 4 * |First(all + Repeat(e, found), MAX_PROGRAMS)|
      invariant dest[..newPos] == head + Flatten(First(all + Repeat(e, found), MAX_PROGRAMS))
    {
      assert pids[..i + 1][..i] == pids[..i];
      if pids[i] == NetworkPid(e) {
        if newPos + PAT_PROG_LEN + 4 + 1 > TS_PACKET_SIZE {
          OccurrencesGrow(pids, i, NetworkPid(e));
          FullStays(all, e, found, Occurrences(pids, NetworkPid(e)));
          return;
        }
        newPos := PutProgram(data, delta, dest, newPos, e, head, all, found);
        found := found + 1;
      }
      i := i + 1;
    }
    assert pids[..|pids|] == pids;
  }

  /** One more copy of the program, for which there is room. */
  method PutProgram(data: array<byte>, delta: nat, dest: array<byte>, pos: nat, e: Program, ghost head: seq<byte>,
    ghost all: seq<Program>, ghost found: nat) returns (newPos: nat)
    requires data != dest && delta + 4 <= data.Length && e == data[delta..delta + 4]
    requires pos + PAT_PROG_LEN + 4 + 1 <= TS_PACKET_SIZE == dest.Length && |head| == 13
    requires pos == 13 + 4 * |First(all + Repeat(e, found), MAX_PROGRAMS)|
    requires dest[..pos] == head + Flatten(First(all + Repeat(e, found), MAX_PROGRAMS))
    modifies dest
    ensures newPos == 13 + 4 * |First(all + Repeat(e, found + 1), MAX_PROGRAMS)|
    ensures dest[..newPos] == head + Flatten(First(all + Repeat(e, found + 1), MAX_PROGRAMS))
  {
    hide Flatten, First;
    ghost var now := First(all + Repeat(e, found), MAX_PROGRAMS);
    RepeatSnoc(all, e, found);
    FirstSnoc(all + Repeat(e, found), e, MAX_PROGRAMS);
    FlattenSnoc(now, e);
    Regrouped(head, Flatten(now), e);
    Memcpy(dest, pos, data, delta, PAT_PROG_LEN);
    newPos := pos + PAT_PROG_LEN;
  }

  lemma {:induction false} OccurrencesGrow(pids: seq<int>, i: nat, pid: int)
    requires i <= |pids|
    ensures Occurrences(pids[..i], pid) <= Occurrences(pids, pid)
  {
    if i == |pids| {
      assert pids[..i] == pids;
    } else {
      assert pids[..|pids| - 1][..i] == pids[..i];
      OccurrencesGrow(pids[..|pids| - 1], i, pid);
    }
  }

  /** A full list stays as it is. */
  lemma FullStays(all: seq<Program>, e: Program, m: nat, n: nat)
    requires m <= n && |First(all + Repeat(e, m), MAX_PROGRAMS)| == MAX_PROGRAMS
    ensures First(all + Repeat(e, n), MAX_PROGRAMS) == First(all + Repeat(e, m), MAX_PROGRAMS)
  {
  }

  /** One program of the stored table. */
  method CopyProgram(data: array<byte>, delta: nat, dest: array<byte>, pos: nat, pids: seq<int>, serviceId: int,
    e: Program, ghost head: seq<byte>, ghost before: seq<Program>) returns (newPos: nat)
    requires data != dest && delta + 4 <= data.Length && dest.Length == TS_PACKET_SIZE && e == data[delta..delta + 4]
    requires |head| == 13 && pos == 13 + 4 * |First(before, MAX_PROGRAMS)|
    requires dest[..pos] == head + Flatten(First(before, MAX_PROGRAMS))
    modifies dest
    ensures var now := First(before + Repeat(e, Copies(e, pids, serviceId)), MAX_PROGRAMS);
      newPos == 13 + 4 * |now| && dest[..newPos] == head + Flatten(now)
  {
    hide Flatten, Occurrences, First;
    newPos := pos;
    if Number(e) != 0 {
      if pos + PAT_PROG_LEN + 4 < TS_PACKET_SIZE && (serviceId == 0 || serviceId == Number(e)) {
        newPos := KeepProgram(data, delta, dest, pos, pids, e, head, before);
      } else {
        NotKept(before, e, Copies(e, pids, serviceId));
      }
    } else {
      NotKept(before, e, Copies(e, pids, serviceId));
    }
  }

  /** Go through the programs of the stored table. */
  method CopyPrograms(data: array<byte>, sectionLength: nat, dest: array<byte>, pids: seq<int>, serviceId: int,
    ghost head: seq<byte>)
    returns (pos: nat)
    requires data != dest && 8 + 4 * ProgramCount(sectionLength) <= data.Length && dest.Length == TS_PACKET_SIZE
    requires |head| == 13 && dest[..13] == head
    modifies dest
    ensures var kept := First(Kept(Programs(data[..], ProgramCount(sectionLength)), pids, serviceId), MAX_PROGRAMS);
      pos == 13 + 4 * |kept| && dest[..pos] == head + Flatten(kept)
  {
    hide Flatten, Occurrences, First, Copies, Kept, Programs;
    ghost var all := data[..];
    var delta := PAT_LEN;
    ghost var k: nat := 0;
    pos := 13;
    KeptNone(all, pids, serviceId, head);
    while delta + PAT_PROG_LEN < sectionLength
      invariant delta == 8 + 4 * k && k <= ProgramCount(sectionLength) && data[..] == all
      invariant pos == 13 + 4 * |First(Kept(Programs(all, k), pids, serviceId), MAX_PROGRAMS)|
      invariant dest[..pos] == head + Flatten(First(Kept(Programs(all, k), pids, serviceId), MAX_PROGRAMS))
    {
      var e: Program := data[delta..delta + 4];
      assert e == ProgramAt(all, k);
      KeptSnoc(all, k, pids, serviceId);
      pos := CopyProgram(data, delta, dest, pos, pids, serviceId, e, head, Kept(Programs(all, k), pids, serviceId));
      delta := delta + PAT_PROG_LEN;
      k := k + 1;
    }
    assert k == ProgramCount(sectionLength);
  }

  lemma KeptNone(data: seq<byte>, pids: seq<int>, serviceId: int, head: seq<byte>)
    requires |data| >= 8
    ensures First(Kept(Programs(data, 0), pids, serviceId), MAX_PROGRAMS) == []
    ensures head + Flatten<byte>([]) == head
  {
  }

  lemma KeptSnoc(data: seq<byte>, k: nat, pids: seq<int>, serviceId: int)
    requires 12 + 4 * k <= |data|
    ensures Kept(Programs(data, k + 1), pids, serviceId)
         == Kept(Programs(data, k), pids, serviceId)
           + Repeat(ProgramAt(data, k), Copies(ProgramAt(data, k), pids, serviceId))
  {
    assert Programs(data, k + 1)[..k] == Programs(data, k);
  }

  lemma NotKept(before: seq<Program>, e: Program, n: nat)
    requires n == 0 || |First(before, MAX_PROGRAMS)| == MAX_PROGRAMS
    ensures First(before + Repeat(e, n), MAX_PROGRAMS) == First(before, MAX_PROGRAMS)
  {
  }

  /** Generate the channel's packet from the stored table and the header of the packet at hand. */
  method PatChannelRewrite(fullPat: array<byte>, buf: array<byte>, generatedPat: array<byte>, pids: seq<int>,
    serviceId: int)
    returns (ghost section: seq<byte>)
    requires fullPat != buf && fullPat != generatedPat && buf != generatedPat
    requires fullPat.Length == MAX_TS_SIZE && buf.Length == TS_PACKET_SIZE && generatedPat.Length == TS_PACKET_SIZE
    modifies fullPat, buf, generatedPat
    ensures fullPat[..] == OnlySection(old(fullPat[..])) && buf[..] == TsHeader(old(buf[..])) + old(buf[5..])
    ensures var data := old(fullPat[..]);
      CarriesOne(generatedPat[..], TsHeader(old(buf[..])), section)
        && Sealed(section, PatBody(data, KeptPrograms(data, pids, serviceId)))
  {
    hide Flatten, Occurrences, Copies, Kept, CarriesOne, Sealed, Programs;
    ghost var data, ts := fullPat[..], TsHeader(buf[..]);
    var dest := new byte[TS_PACKET_SIZE](_ => 0);
    var sectionLength := fullPat[1] as int % 16 * 256 + fullPat[2] as int;
    CopyTsHeader(buf, dest);
    CopyTableHeader(fullPat, PAT_LEN, dest);
    ghost var head := dest[..13];
    var pos := CopyPrograms(fullPat, sectionLength, dest, pids, serviceId, head);
    SamePrograms(fullPat[..], data, ProgramCount(sectionLength));
    ghost var kept := KeptPrograms(data, pids, serviceId);
    FlattenPrograms(kept);
    assert dest[..pos] == ts + PatBody(data, kept);
    section := Finish(dest, pos, ts, PatBody(data, kept));
    CopyPacket(dest, generatedPat);
  }

  lemma SamePrograms(a: seq<byte>, b: seq<byte>, n: nat)
    requires 8 + 4 * n <= |a| == |b| && a[8..] == b[8..]
    ensures Programs(a, n) == Programs(b, n)
  {
    forall k | 0 <= k < n ensures ProgramAt(a, k) == ProgramAt(b, k) {
      assert ProgramAt(a, k) == a[8..][4 * k..4 * k + 4];
      assert ProgramAt(b, k) == b[8..][4 * k..4 * k + 4];
    }
  }

  /** The whole promise: with a duplicate-free PID list, the section lists the carried programs that fit, in order. */
  lemma RewrittenLists(section: seq<byte>, data: seq<byte>, pids: seq<int>, serviceId: int)
    requires |data| == MAX_TS_SIZE && Distinct(pids)
    requires Sealed(section, PatBody(data, KeptPrograms(data, pids, serviceId)))
    ensures IsSection(section) && section[5] / 2 == data[5] / 2 && section[5] % 2 == 1
    ensures var n := ProgramCount(SectionLength(section));
      && 8 + 4 * n <= |section|
      && Programs(section, n)
        == First(Chosen(Programs(data, ProgramCount(SectionLength(data))), pids, serviceId), MAX_PROGRAMS)
  {
    hide Flatten, Crc, Kept, Chosen, Sealed;
    var kept := KeptPrograms(data, pids, serviceId);
    AnnouncedSection(section, data, kept);
    KeptIsChosen(Programs(data, ProgramCount(SectionLength(data))), pids, serviceId);
    SealedTail(section, PatBody(data, kept), 5, 6);
    assert section[5] == section[5..6][0] == PatBody(data, kept)[5..6][0];
  }
}

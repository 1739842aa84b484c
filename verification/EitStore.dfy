/**
 The store of EIT sections: a linked list with one entry a service and table, replaced when a
 new version arrives.
 */
module EitStore {
  import opened Bytes
  import opened EitCursor

  // ---------- one received EIT section ----------

  type Image = s: seq<byte> | |s| == 4096 witness Repeat(0, 4096)

  /** A copy of the reassembler's result: the whole buffer and how much of it is the section. */
  datatype Copy = Copy(data: Image, len: nat)

  function TableId(d: Image): byte { d[0] }
  function ServiceId(d: Image): nat { d[3] as nat * 256 + d[4] as nat }
  function Version(d: Image): nat { d[5] as nat / 2 % 32 }
  function CurrentNext(d: Image): bool { d[5] % 2 == 1 }
  function SectionNumber(d: Image): nat { d[6] as nat }
  function LastSectionNumber(d: Image): nat { d[7] as nat }

  // ---------- the store as a list of entries ----------

  datatype StoreEntry = StoreEntry(serviceId: nat, tableId: byte, version: nat, last: nat, sections: map<nat, Copy>)

  const BLANK := StoreEntry(0, 0, 0, 0, map[])

  predicate HasKey(e: StoreEntry, sid: nat, tid: byte)
  {
    e.serviceId == sid && e.tableId == tid
  }

  /** The first entry for the key: the one readers see. */
  function Find(es: seq<StoreEntry>, sid: nat, tid: byte): (r: Option<nat>)
    ensures r.Some? ==> r.value < |es| && HasKey(es[r.value], sid, tid)
    ensures r.Some? ==> forall i :: 0 <= i < r.value ==> !HasKey(es[i], sid, tid)
    ensures r.None? ==> forall i :: 0 <= i < |es| ==> !HasKey(es[i], sid, tid)
  {
    if es == [] then None
    else if HasKey(es[0], sid, tid) then Some(0)
    else
      match Find(es[1..], sid, tid)
      case None => None
      case Some(i) => Some(i + 1)
  }

  /** The entry a writer gets: the search stops short of the last entry, and then appends. */
  function WriteIndex(es: seq<StoreEntry>, sid: nat, tid: byte): (i: nat)
    ensures i <= |es|
    ensures i < |es| ==> i < |es| - 1 && HasKey(es[i], sid, tid)
    ensures forall j :: 0 <= j < i && j < |es| - 1 ==> !HasKey(es[j], sid, tid)
  {
    if es == [] then 0
    else
      match Find(es[..|es| - 1], sid, tid)
      case None => |es|
      case Some(i) => i
  }

  function NeedUpdate(es: seq<StoreEntry>, d: Image): bool
  {
    && IsEitTable(TableId(d))
    && CurrentNext(d)
    && match Find(es, ServiceId(d), TableId(d))
       case None => true
       case Some(i) => Version(d) != es[i].version || SectionNumber(d) !in es[i].sections
  }

  /** The entry after a section has been put in it; a new version clears it first. */
  function Filled(e: StoreEntry, c: Copy): StoreEntry
  {
    var kept := if Version(c.data) != e.version then map[] else e.sections;
    StoreEntry(ServiceId(c.data), TableId(c.data), Version(c.data), LastSectionNumber(c.data),
               kept[SectionNumber(c.data) := c])
  }

  function Update(es: seq<StoreEntry>, c: Copy): (r: seq<StoreEntry>)
  {
    var i := WriteIndex(es, ServiceId(c.data), TableId(c.data));
    if i < |es| then es[i := Filled(es[i], c)] else es + [Filled(BLANK, c)]
  }

  /** The store after receiving the sections cs, those that need no update ignored. */
  function Received(cs: seq<Copy>): seq<StoreEntry>
  {
    if cs == [] then []
    else
      var es := Received(cs[..|cs| - 1]);
      var c := cs[|cs| - 1];
      if NeedUpdate(es, c.data) then Update(es, c) else es
  }

  // ---------- what every reachable store satisfies ----------

  /** Each stored section is one of its entry's service, table and version, under its own number. */
  ghost predicate EntryOk(e: StoreEntry)
  {
    && IsEitTable(e.tableId)
    && e.sections != map[]
    && forall n :: n in e.sections ==>
         var d := e.sections[n].data;
         && ServiceId(d) == e.serviceId && TableId(d) == e.tableId
         && Version(d) == e.version && SectionNumber(d) == n && CurrentNext(d)
  }

  function Count(es: seq<StoreEntry>, sid: nat, tid: byte): nat
  {
    if es == [] then 0 else Count(es[..|es| - 1], sid, tid) + if HasKey(es[|es| - 1], sid, tid) then 1 else 0
  }

  ghost predicate StoreOk(es: seq<StoreEntry>)
  {
    && (forall i :: 0 <= i < |es| ==> EntryOk(es[i]))
    && forall sid: nat, tid: byte :: Count(es, sid, tid) <= 2
  }

  lemma {:induction false} CountZero(es: seq<StoreEntry>, sid: nat, tid: byte)
    requires forall i :: 0 <= i < |es| ==> !HasKey(es[i], sid, tid)
    ensures Count(es, sid, tid) == 0
  {
    if es != [] {
      CountZero(es[..|es| - 1], sid, tid);
    }
  }

  lemma {:induction false} CountReplaced(es: seq<StoreEntry>, i: nat, e: StoreEntry, sid: nat, tid: byte)
    requires i < |es| && e.serviceId == es[i].serviceId && e.tableId == es[i].tableId
    ensures Count(es[i := e], sid, tid) == Count(es, sid, tid)
  {
    var k := |es| - 1;
    if i < k {
      CountReplaced(es[..k], i, e, sid, tid);
      assert es[i := e][..k] == es[..k][i := e];
    } else {
      assert es[i := e][..k] == es[..k];
    }
  }

  lemma FilledOk(e: StoreEntry, c: Copy)
    requires IsEitTable(TableId(c.data)) && CurrentNext(c.data)
    requires e == BLANK || (EntryOk(e) && HasKey(e, ServiceId(c.data), TableId(c.data)))
    ensures EntryOk(Filled(e, c)) && HasKey(Filled(e, c), ServiceId(c.data), TableId(c.data))
  {
    var f := Filled(e, c);
    assert SectionNumber(c.data) in f.sections;
  }

  lemma ReplacedOk(es: seq<StoreEntry>, i: nat, e: StoreEntry)
    requires StoreOk(es) && i < |es| && EntryOk(e) && HasKey(e, es[i].serviceId, es[i].tableId)
    ensures StoreOk(es[i := e])
  {
    hide EntryOk;
    var es' := es[i := e];
    forall s: nat, t: byte ensures Count(es', s, t) <= 2 {
      CountReplaced(es, i, e, s, t);
    }
  }

  lemma CountSnoc(es: seq<StoreEntry>, e: StoreEntry, sid: nat, tid: byte)
    ensures Count(es + [e], sid, tid) == Count(es, sid, tid) + if HasKey(e, sid, tid) then 1 else 0
  {
    assert (es + [e])[..|es|] == es;
  }

  lemma AppendedOk(es: seq<StoreEntry>, e: StoreEntry)
    requires StoreOk(es) && EntryOk(e) && Count(es, e.serviceId, e.tableId) <= 1
    ensures StoreOk(es + [e])
  {
    hide EntryOk, Count;
    forall s: nat, t: byte ensures Count(es + [e], s, t) <= 2 {
      CountSnoc(es, e, s, t);
    }
  }

  /** When the writer finds no entry for a key, only the last one can have it. */
  lemma AppendsOnlyWhenFew(es: seq<StoreEntry>, sid: nat, tid: byte)
    requires WriteIndex(es, sid, tid) == |es|
    ensures Count(es, sid, tid) <= 1
  {
    if es != [] {
      CountZero(es[..|es| - 1], sid, tid);
    }
  }

  lemma UpdateOk(es: seq<StoreEntry>, c: Copy)
    requires StoreOk(es) && IsEitTable(TableId(c.data)) && CurrentNext(c.data)
    ensures StoreOk(Update(es, c))
  {
    hide Filled, EntryOk, Count;
    var i := WriteIndex(es, ServiceId(c.data), TableId(c.data));
    if i < |es| {
      FilledOk(es[i], c);
      ReplacedOk(es, i, Filled(es[i], c));
    } else {
      FilledOk(BLANK, c);
      AppendsOnlyWhenFew(es, ServiceId(c.data), TableId(c.data));
      AppendedOk(es, Filled(BLANK, c));
    }
  }

  /**
   Store invariant: after any sections in any order, every marked section belongs to its entry
   (versions are never mixed) and no key has more than two entries.
   */
  lemma {:induction false} ReceivedOk(cs: seq<Copy>)
    ensures StoreOk(Received(cs))
  {
    if cs != [] {
      ReceivedOk(cs[..|cs| - 1]);
      var es, c := Received(cs[..|cs| - 1]), cs[|cs| - 1];
      if NeedUpdate(es, c.data) {
        UpdateOk(es, c);
      }
    }
  }

  // ---------- the list stays short ----------

  function Without(es: seq<StoreEntry>, sid: nat, tid: byte): seq<StoreEntry>
  {
    if es == [] then []
    else Without(es[..|es| - 1], sid, tid) + if HasKey(es[|es| - 1], sid, tid) then [] else [es[|es| - 1]]
  }

  lemma {:induction false} WithoutCount(es: seq<StoreEntry>, sid: nat, tid: byte, s: nat, t: byte)
    ensures |Without(es, sid, tid)| + Count(es, sid, tid) == |es|
    ensures Count(Without(es, sid, tid), s, t) == if s == sid && t == tid then 0 else Count(es, s, t)
    ensures forall e :: e in Without(es, sid, tid) <==> e in es && !HasKey(e, sid, tid)
  {
    if es != [] {
      var k := |es| - 1;
      WithoutCount(es[..k], sid, tid, s, t);
      var w := Without(es[..k], sid, tid);
      assert es == es[..k] + [es[k]];
      if HasKey(es[k], sid, tid) {
        assert w + [] == w;
      } else {
        assert (w + [es[k]])[..|w|] == w;
      }
    }
  }

  lemma EmptyUnlessMember<T>(es: seq<T>)
    ensures es == [] || exists e :: e in es
  {
    if es != [] { assert es[0] in es; }
  }

  /** A list in which each of the keys occurs at most twice, and no other key, has at most two entries a key. */
  lemma {:induction false} AtMostTwicePerKey(es: seq<StoreEntry>, keys: set<(nat, byte)>)
    requires forall s: nat, t: byte :: Count(es, s, t) <= 2
    requires forall e :: e in es ==> (e.serviceId, e.tableId) in keys
    ensures |es| <= 2 * |keys|
    decreases |keys|
  {
    if keys == {} {
      EmptyUnlessMember(es);
    } else {
      var k :| k in keys;
      var w := Without(es, k.0, k.1);
      forall s: nat, t: byte ensures Count(w, s, t) <= 2 {
        WithoutCount(es, k.0, k.1, s, t);
      }
      WithoutCount(es, k.0, k.1, 0, 0);
      assert |keys - {k}| == |keys| - 1;
      AtMostTwicePerKey(w, keys - {k});
    }
  }

  lemma StoreBounded(cs: seq<Copy>)
    ensures |Received(cs)|
         <= 2 * |set i | 0 <= i < |Received(cs)| :: (Received(cs)[i].serviceId, Received(cs)[i].tableId)|
  {
    ReceivedOk(cs);
    var es := Received(cs);
    AtMostTwicePerKey(es, set i | 0 <= i < |es| :: (es[i].serviceId, es[i].tableId));
  }

  // ---------- when a stored section can be read back ----------

  /** The section readers find. */
  function Lookup(es: seq<StoreEntry>, sid: nat, tid: byte, n: nat): Option<Copy>
  {
    match Find(es, sid, tid)
    case None => None
    case Some(i) => if n in es[i].sections then Some(es[i].sections[n]) else None
  }

  /**
   A section just stored is the one readers find unless the entry readers see is the last of
   the list: the writer's search skips that one and fills a second entry nobody reads.
   */
  lemma StoredIsReadable(es: seq<StoreEntry>, c: Copy)
    requires StoreOk(es) && NeedUpdate(es, c.data)
    ensures Lookup(Update(es, c), ServiceId(c.data), TableId(c.data), SectionNumber(c.data)) == Some(c)
       <==> (Find(es, ServiceId(c.data), TableId(c.data)).Some? ==>
               Find(es, ServiceId(c.data), TableId(c.data)).value < |es| - 1)
  {
    hide StoreOk, NeedUpdate, Filled, Lookup;
    var i := WriteIndex(es, ServiceId(c.data), TableId(c.data));
    if i < |es| {
      FillSeen(es, c, i);
    } else if Find(es, ServiceId(c.data), TableId(c.data)).Some? {
      AppendUnseen(es, c);
    } else {
      AppendSeen(es, c);
    }
  }

  lemma FilledHas(e: StoreEntry, c: Copy)
    ensures var f, n := Filled(e, c), SectionNumber(c.data);
      HasKey(f, ServiceId(c.data), TableId(c.data)) && n in f.sections && f.sections[n] == c
  {
  }

  /** The entry written is an earlier one: readers see it. */
  lemma FillSeen(es: seq<StoreEntry>, c: Copy, i: nat)
    requires i == WriteIndex(es, ServiceId(c.data), TableId(c.data)) < |es|
    ensures Find(es, ServiceId(c.data), TableId(c.data)) == Some(i) && i < |es| - 1
    ensures Lookup(Update(es, c), ServiceId(c.data), TableId(c.data), SectionNumber(c.data)) == Some(c)
  {
    hide Filled;
    FilledHas(es[i], c);
    FindIs(es, i, ServiceId(c.data), TableId(c.data));
    FindIs(Update(es, c), i, ServiceId(c.data), TableId(c.data));
  }

  /** The writer appends although the last entry has the key: readers see that one. */
  lemma AppendUnseen(es: seq<StoreEntry>, c: Copy)
    requires StoreOk(es) && NeedUpdate(es, c.data)
    requires WriteIndex(es, ServiceId(c.data), TableId(c.data)) == |es|
    requires Find(es, ServiceId(c.data), TableId(c.data)).Some?
    ensures Find(es, ServiceId(c.data), TableId(c.data)) == Some(|es| - 1)
    ensures Lookup(Update(es, c), ServiceId(c.data), TableId(c.data), SectionNumber(c.data)) != Some(c)
  {
    hide Filled;
    var k := |es| - 1;
    assert Find(es, ServiceId(c.data), TableId(c.data)).value == k;
    assert Update(es, c) == es + [Filled(BLANK, c)];
    FindIs(Update(es, c), k, ServiceId(c.data), TableId(c.data));
    SeenIsOther(es[k], c);
  }

  /** An entry that needs the section does not have it. */
  lemma SeenIsOther(e: StoreEntry, c: Copy)
    requires EntryOk(e) && (Version(c.data) != e.version || SectionNumber(c.data) !in e.sections)
    ensures SectionNumber(c.data) in e.sections ==> e.sections[SectionNumber(c.data)] != c
  {
  }

  /** There is no entry for the key yet. */
  lemma AppendSeen(es: seq<StoreEntry>, c: Copy)
    requires Find(es, ServiceId(c.data), TableId(c.data)).None?
    requires WriteIndex(es, ServiceId(c.data), TableId(c.data)) == |es|
    ensures Lookup(Update(es, c), ServiceId(c.data), TableId(c.data), SectionNumber(c.data)) == Some(c)
  {
    hide Filled;
    FilledHas(BLANK, c);
    assert Update(es, c) == es + [Filled(BLANK, c)];
    FindIs(Update(es, c), |es|, ServiceId(c.data), TableId(c.data));
  }

  /**
   Receiving the section once more makes it the one readers find: a hidden one is still wanted,
   and by then the entry readers see is not the last any more.
   */
  lemma SecondTimeReadable(es: seq<StoreEntry>, c: Copy)
    requires StoreOk(es) && NeedUpdate(es, c.data)
    ensures var once := Update(es, c);
      var twice := if NeedUpdate(once, c.data) then Update(once, c) else once;
      Lookup(twice, ServiceId(c.data), TableId(c.data), SectionNumber(c.data)) == Some(c)
  {
    hide StoreOk, Update, NeedUpdate, Lookup;
    var sid, tid := ServiceId(c.data), TableId(c.data);
    var once := Update(es, c);
    WantedAreApplicable(es, c);
    UpdateOk(es, c);
    StoredIsReadable(es, c);
    if Lookup(once, sid, tid, SectionNumber(c.data)) == Some(c) {
      ReadableIsKnown(es, c);
    } else {
      HiddenIsWanted(es, c);
      StoredIsReadable(once, c);
    }
  }

  lemma WantedAreApplicable(es: seq<StoreEntry>, c: Copy)
    requires NeedUpdate(es, c.data)
    ensures IsEitTable(TableId(c.data)) && CurrentNext(c.data)
  {
  }

  /** A section that readers find is not wanted again. */
  lemma ReadableIsKnown(es: seq<StoreEntry>, c: Copy)
    requires StoreOk(Update(es, c))
    requires Lookup(Update(es, c), ServiceId(c.data), TableId(c.data), SectionNumber(c.data)) == Some(c)
    ensures !NeedUpdate(Update(es, c), c.data)
  {
    hide Update;
    var now := Update(es, c);
    var i := Find(now, ServiceId(c.data), TableId(c.data)).value;
    assert EntryOk(now[i]);
  }

  /** A section that readers do not find is wanted again, and the entry they see has another behind it. */
  lemma HiddenIsWanted(es: seq<StoreEntry>, c: Copy)
    requires StoreOk(es) && NeedUpdate(es, c.data)
    requires var r := Find(es, ServiceId(c.data), TableId(c.data)); r.Some? && r.value == |es| - 1
    ensures NeedUpdate(Update(es, c), c.data)
    ensures var r := Find(Update(es, c), ServiceId(c.data), TableId(c.data));
      r.Some? && r.value < |Update(es, c)| - 1
  {
    hide StoreOk, Filled;
    var k := |es| - 1;
    assert Update(es, c) == es + [Filled(BLANK, c)];
    FindIs(Update(es, c), k, ServiceId(c.data), TableId(c.data));
  }

  /**
   So two sections of one new table, one after the other, leave the second in an entry of its own
   that no reader finds.
   */
  lemma SecondIsHidden(first: Copy, second: Copy)
    requires var a, b := first.data, second.data;
      && IsEitTable(TableId(a)) && CurrentNext(a) && CurrentNext(b)
      && ServiceId(a) == ServiceId(b) && TableId(a) == TableId(b) && Version(a) == Version(b)
      && SectionNumber(a) != SectionNumber(b)
    ensures var es, n := Received([first, second]), SectionNumber(second.data);
      && |es| == 2 && n in es[1].sections && es[1].sections[n] == second
      && Lookup(es, ServiceId(second.data), TableId(second.data), n) == None
  {
    var e, f := Filled(BLANK, first), Filled(BLANK, second);
    FirstReceived(first);
    SecondAppended(e, second);
    assert [first, second][..1] == [first];
    FindIs([e, f], 0, ServiceId(second.data), TableId(second.data));
  }

  lemma FirstReceived(c: Copy)
    requires IsEitTable(TableId(c.data)) && CurrentNext(c.data)
    ensures Received([c]) == [Filled(BLANK, c)]
  {
    hide Filled;
    assert [c][..0] == [];
  }

  /** An entry that is alone is seen by readers and skipped by writers. */
  lemma SecondAppended(e: StoreEntry, c: Copy)
    requires IsEitTable(TableId(c.data)) && CurrentNext(c.data) && HasKey(e, ServiceId(c.data), TableId(c.data))
    requires SectionNumber(c.data) !in e.sections
    ensures NeedUpdate([e], c.data) && Update([e], c) == [e, Filled(BLANK, c)]
  {
    hide Filled;
    FindIs([e], 0, ServiceId(c.data), TableId(c.data));
  }

  /** Two sections of different tables of one service, each in an entry of its own. */
  lemma TwoTables(a: Copy, b: Copy)
    requires IsEitTable(TableId(a.data)) && CurrentNext(a.data) && IsEitTable(TableId(b.data)) && CurrentNext(b.data)
    requires ServiceId(a.data) == ServiceId(b.data) && TableId(a.data) != TableId(b.data)
    ensures var es, sid := Received([a, b]), ServiceId(a.data);
      && es == [Filled(BLANK, a), Filled(BLANK, b)]
      && Find(es, sid, TableId(a.data)) == Some(0) && Find(es, sid, TableId(b.data)) == Some(1)
      && forall t: byte :: t != TableId(a.data) && t != TableId(b.data) ==> Find(es, sid, t) == None
  {
    hide Received;
    var e, f := Filled(BLANK, a), Filled(BLANK, b);
    FirstReceived(a);
    OtherAppended(e, b);
    assert [a] + [b] == [a, b];
    ReceivedNext([a], b);
    FindIs([e, f], 0, ServiceId(a.data), TableId(a.data));
    FindIs([e, f], 1, ServiceId(a.data), TableId(b.data));
  }

  lemma ReceivedNext(cs: seq<Copy>, c: Copy)
    ensures Received(cs + [c]) == if NeedUpdate(Received(cs), c.data) then Update(Received(cs), c) else Received(cs)
  {
    assert (cs + [c])[..|cs|] == cs;
  }

  lemma OtherAppended(e: StoreEntry, c: Copy)
    requires IsEitTable(TableId(c.data)) && CurrentNext(c.data) && !HasKey(e, ServiceId(c.data), TableId(c.data))
    ensures NeedUpdate([e], c.data) && Update([e], c) == [e, Filled(BLANK, c)]
  {
    hide Filled;
  }

  lemma {:induction false} FindIs(es: seq<StoreEntry>, i: nat, sid: nat, tid: byte)
    requires i < |es| && HasKey(es[i], sid, tid)
    requires forall j :: 0 <= j < i ==> !HasKey(es[j], sid, tid)
    ensures Find(es, sid, tid) == Some(i)
  {
    if i > 0 {
      FindIs(es[1..], i - 1, sid, tid);
    }
  }

  // ---------- the linked list ----------

  class EitPacket {
    var serviceId: nat
    var tableId: byte
    var version: nat
    var lastSectionNumber: nat
    var sections: map<nat, Copy>
    var next: EitPacket?

    constructor ()
      ensures next == null && Abs() == BLANK
    {
      serviceId, tableId, version, lastSectionNumber, sections, next := 0, 0, 0, 0, map[], null;
    }

    ghost function Abs(): StoreEntry
      reads this
    {
      StoreEntry(serviceId, tableId, version, lastSectionNumber, sections)
    }

    /** Forget everything but the place in the list. */
    method FreeContents()
      modifies this
      ensures Abs() == BLANK && next == old(next)
    {
      serviceId, tableId, version, lastSectionNumber, sections := 0, 0, 0, 0, map[];
    }

    method Fill(c: Copy)
      modifies this
      ensures Abs() == Filled(old(Abs()), c) && next == old(next)
    {
      if Version(c.data) != version {
        FreeContents();
      }
      lastSectionNumber := LastSectionNumber(c.data);
      version := Version(c.data);
      serviceId := ServiceId(c.data);
      tableId := TableId(c.data);
      sections := sections[SectionNumber(c.data) := c];
    }
  }

  class Store {
    var eitPackets: EitPacket?
    ghost var nodes: seq<EitPacket>

    /** The list from eitPackets is exactly nodes, without repetition. */
    ghost predicate Valid()
      reads this, nodes
    {
      && eitPackets == (if nodes == [] then null else nodes[0])
      && (forall i {:trigger nodes[i].next} :: 0 <= i < |nodes| - 1 ==> nodes[i].next == nodes[i + 1])
      && (nodes != [] ==> nodes[|nodes| - 1].next == null)
      && (forall i, j :: 0 <= i < j < |nodes| ==> nodes[i] != nodes[j])
    }

    ghost function Entries(): (es: seq<StoreEntry>)
      reads this, nodes
      ensures |es| == |nodes| && forall i :: 0 <= i < |es| ==> es[i] == nodes[i].Abs()
    {
      seq(|nodes|, i requires 0 <= i < |nodes| reads this, nodes => nodes[i].Abs())
    }

    constructor ()
      ensures Valid() && Entries() == [] && nodes == []
    {
      eitPackets, nodes := null, [];
    }

    method FindByTsid(sid: nat, tid: byte) returns (found: EitPacket?)
      requires Valid()
      ensures match Find(Entries(), sid, tid)
              case None => found == null
              case Some(i) => found == nodes[i]
    {
      found := null;
      var actual := eitPackets;
      ghost var i := 0;
      while found == null && actual != null
        invariant 0 <= i <= |nodes|
        invariant found == null ==> actual == if i < |nodes| then nodes[i] else null
        invariant found == null ==> forall j :: 0 <= j < i ==> !HasKey(nodes[j].Abs(), sid, tid)
        invariant found != null ==> i < |nodes| && found == nodes[i] && HasKey(nodes[i].Abs(), sid, tid)
        invariant found != null ==> forall j :: 0 <= j < i ==> !HasKey(nodes[j].Abs(), sid, tid)
        decreases |nodes| - i, found == null
      {
        if actual.serviceId == sid && actual.tableId == tid {
          found := actual;
        } else {
          actual := actual.next;
          i := i + 1;
        }
      }
      if found != null {
        FindIs(Entries(), i, sid, tid);
      }
    }

    /** The entry to write to: an earlier one with the key, or a new one at the end. */
    method NewPacket(sid: nat, tid: byte) returns (actual: EitPacket, ghost index: nat)
      requires Valid()
      modifies this, nodes
      ensures Valid()
      ensures index == WriteIndex(old(Entries()), sid, tid)
      ensures index < |nodes| && actual == nodes[index]
      ensures index < |old(nodes)| ==> nodes == old(nodes) && Entries() == old(Entries())
      ensures index == |old(nodes)| ==> fresh(actual) && nodes == old(nodes) + [actual]
                                        && Entries() == old(Entries()) + [BLANK]
    {
      var at := eitPackets;
      index := 0;
      while at != null && at.next != null
        invariant 0 <= index <= |nodes|
        invariant at == if index < |nodes| then nodes[index] else null
        invariant forall j :: 0 <= j < index ==> !HasKey(nodes[j].Abs(), sid, tid)
        invariant nodes != [] ==> index < |nodes|
        decreases |nodes| - index
      {
        if at.serviceId == sid && at.tableId == tid {
          FindIs(Entries()[..|nodes| - 1], index, sid, tid);
          return at, index;
        }
        at := at.next;
        index := index + 1;
      }
      index := |nodes|;
      actual := AppendPacket(at);
    }

    /** A new entry behind the last one. */
    method AppendPacket(at: EitPacket?) returns (node: EitPacket)
      requires Valid() && at == if nodes == [] then null else nodes[|nodes| - 1]
      modifies this, nodes
      ensures Valid() && fresh(node) && nodes == old(nodes) + [node] && Entries() == old(Entries()) + [BLANK]
    {
      node := new EitPacket();
      if at == null {
        eitPackets := node;
      } else {
        at.next := node;
      }
      nodes := nodes + [node];
    }

    method NeedsUpdate(d: Image) returns (needed: bool)
      requires Valid()
      ensures needed == NeedUpdate(Entries(), d)
    {
      var tid := TableId(d);
      if tid != 0x4E && tid / 16 != 5 {
        return false;
      }
      if !CurrentNext(d) {
        return false;
      }
      var seen := FindByTsid(ServiceId(d), tid);
      if seen == null {
        return true;
      }
      if Version(d) != seen.version {
        return true;
      }
      needed := SectionNumber(d) !in seen.sections;
    }

    method FillPacket(c: Copy, packet: EitPacket, ghost index: nat)
      requires Valid() && index < |nodes| && nodes[index] == packet
      modifies nodes
      ensures Valid() && Entries() == old(Entries())[index := Filled(old(Entries())[index], c)]
    {
      hide Filled;
      packet.Fill(c);
    }

    method StoreSection(c: Copy)
      requires Valid()
      modifies this, nodes
      ensures Valid() && Entries() == Update(old(Entries()), c)
      ensures forall n :: n in nodes ==> n in old(nodes) || fresh(n)
    {
      var packet, index := NewPacket(ServiceId(c.data), TableId(c.data));
      hide Filled, WriteIndex;
      ghost var es := Entries();
      FillPacket(c, packet, index);
    }

    /** One section popped from the reassembler: stored if it brings something new. */
    method Receive(c: Copy) returns (updated: bool)
      requires Valid()
      modifies this, nodes
      ensures Valid()
      ensures updated == NeedUpdate(old(Entries()), c.data)
      ensures Entries() == if updated then Update(old(Entries()), c) else old(Entries())
      ensures forall n :: n in nodes ==> n in old(nodes) || fresh(n)
    {
      updated := NeedsUpdate(c.data);
      if updated {
        StoreSection(c);
      }
    }
  }
}

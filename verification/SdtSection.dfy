/** Service Description Tables: what they list, and what a channel's rewritten table must list. */
module SdtSection {
  import opened Bytes
  import opened Crc32
  import opened Sections
  import opened Demux
  import opened Rewriting

  const SDT_LEN: nat := 11
  const SDT_DESCR_LEN: nat := 5
  const SDT_TABLE: byte := 0x42
  /** The longest descriptor loop that fits a packet with both headers and the CRC. */
  const MAX_LOOP: nat := 162

  const ALLOWED_TAGS: seq<byte> := [0x47, 0x48, 0x50, 0x51, 0x53, 0x5D, 0x6E]

  predicate IsAllowed(tag: byte) { tag in ALLOWED_TAGS }

  // ---------- tables as lists of services ----------

  /** A tag, a length up to 253, and as many bytes. */
  type Descriptor = d: seq<byte> | 2 <= |d| <= 255 && d[1] as nat == |d| - 2 witness [0, 0]

  datatype ServiceFields = ServiceFields(id: nat, flags: byte, status: byte, descriptors: seq<Descriptor>)

  type Service = s: ServiceFields | s.id < 65536 && s.status % 16 == 0 && |Flatten(s.descriptors)| < 4096
    witness ServiceFields(0, 0, 0, [])

  function Encode(s: Service): (e: seq<byte>)
    ensures |e| >= SDT_DESCR_LEN
  {
    var n := |Flatten(s.descriptors)|;
    [s.id / 256, s.id % 256, s.flags, s.status + n / 256, n % 256] + Flatten(s.descriptors)
  }

  function EncodeAll(services: seq<Service>): seq<byte>
  {
    if services == [] then [] else Encode(services[0]) + EncodeAll(services[1..])
  }

  /** The order-preserving filter by the list of allowed tags. */
  function Allowed(ds: seq<Descriptor>): seq<Descriptor>
  {
    if ds == [] then []
    else (if IsAllowed(ds[0][0]) then [ds[0]] else []) + Allowed(ds[1..])
  }

  function Flags(flags: byte, forceEit: bool): byte
  {
    if forceEit then flags / 4 * 4 + 3 else flags
  }

  /** The service as it is announced to its channel. */
  function Announced(s: Service, forceEit: bool): Service
  {
    AllowedShrinks(s.descriptors);
    s.(flags := Flags(s.flags, forceEit), descriptors := Allowed(s.descriptors))
  }

  /** The first service with the id whose kept descriptors fit a packet. */
  function Wanted(services: seq<Service>, id: int): Option<Service>
  {
    if services == [] then None
    else if services[0].id == id && |Flatten(Allowed(services[0].descriptors))| <= MAX_LOOP then Some(services[0])
    else Wanted(services[1..], id)
  }

  lemma {:induction false} AllowedShrinks(ds: seq<Descriptor>)
    ensures |Flatten(Allowed(ds))| <= |Flatten(ds)|
    ensures forall d :: d in Allowed(ds) ==> d in ds && IsAllowed(d[0])
  {
    if ds != [] {
      AllowedShrinks(ds[1..]);
      FlattenAppend(if IsAllowed(ds[0][0]) then [ds[0]] else [], Allowed(ds[1..]));
      FlattenOne(ds[0]);
    }
  }

  lemma FlattenOne<T>(s: seq<T>)
    ensures Flatten([s]) == s
  {
    assert Flatten([s]) == s + Flatten<T>([]);
  }

  // ---------- what the code reads in a stored section ----------

  function ServiceId(data: seq<byte>, p: nat): nat
    requires p + SDT_DESCR_LEN <= |data|
  {
    data[p] as nat * 256 + data[p + 1] as nat
  }

  function LoopLength(data: seq<byte>, p: nat): nat
    requires p + SDT_DESCR_LEN <= |data|
  {
    data[p + 3] as nat % 16 * 256 + data[p + 4] as nat
  }

  /** The length of a descriptor with its header, in an unsigned char. */
  function DescriptorLength(data: seq<byte>, q: nat): nat
    requires q + 2 <= |data|
  {
    (data[q + 1] as nat + 2) % 256
  }

  /** What one round reads at q is in the buffer: the header, and all of a descriptor that is copied. */
  predicate Inside(data: seq<byte>, q: nat)
  {
    q + 2 <= |data| && (IsAllowed(data[q]) ==> q + DescriptorLength(data, q) <= |data|)
  }

  /** The walk over the descriptors from q to end reads nothing outside the buffer and moves on. */
  predicate Walkable(data: seq<byte>, q: nat, end: nat)
    decreases end - q
  {
    q >= end
    || (Inside(data, q) && DescriptorLength(data, q) > 0 && Walkable(data, q + DescriptorLength(data, q), end))
  }

  function Filtered(data: seq<byte>, q: nat, end: nat): (f: seq<byte>)
    requires Walkable(data, q, end)
    decreases end - q
  {
    if q >= end then []
    else
      var n := DescriptorLength(data, q);
      (if IsAllowed(data[q]) then data[q..q + n] else []) + Filtered(data, q + n, end)
  }

  function Kept(data: seq<byte>, p: nat): seq<byte>
    requires p + SDT_DESCR_LEN <= |data| && Walkable(data, p + SDT_DESCR_LEN, p + SDT_DESCR_LEN + LoopLength(data, p))
  {
    Filtered(data, p + SDT_DESCR_LEN, p + SDT_DESCR_LEN + LoopLength(data, p))
  }

  /** The entries looked at lie in the buffer, and those with the id can be walked. */
  predicate Searchable(data: seq<byte>, p: nat, sectionLength: nat, id: int)
    decreases sectionLength - p
  {
    p + SDT_DESCR_LEN >= sectionLength
    || (p + SDT_DESCR_LEN <= |data|
        && (ServiceId(data, p) == id ==> Walkable(data, p + SDT_DESCR_LEN, p + SDT_DESCR_LEN + LoopLength(data, p)))
        && ((ServiceId(data, p) == id && |Kept(data, p)| <= MAX_LOOP)
            || Searchable(data, p + SDT_DESCR_LEN + LoopLength(data, p), sectionLength, id)))
  }

  /** The first entry with the id whose kept descriptors fit. */
  function Search(data: seq<byte>, p: nat, sectionLength: nat, id: int): (r: Option<nat>)
    requires Searchable(data, p, sectionLength, id)
    ensures r.Some? ==>
      && r.value + SDT_DESCR_LEN <= |data|
      && Walkable(data, r.value + SDT_DESCR_LEN, r.value + SDT_DESCR_LEN + LoopLength(data, r.value))
      && |Kept(data, r.value)| <= MAX_LOOP
    decreases sectionLength - p
  {
    if p + SDT_DESCR_LEN >= sectionLength then None
    else if ServiceId(data, p) == id && |Kept(data, p)| <= MAX_LOOP then Some(p)
    else Search(data, p + SDT_DESCR_LEN + LoopLength(data, p), sectionLength, id)
  }

  /** The entry written for the one at p: kept descriptors, their length, the flags. */
  function Entry(data: seq<byte>, p: nat, forceEit: bool): seq<byte>
    requires p + SDT_DESCR_LEN <= |data| && Walkable(data, p + SDT_DESCR_LEN, p + SDT_DESCR_LEN + LoopLength(data, p))
  {
    var n := |Kept(data, p)|;
    [data[p], data[p + 1], Flags(data[p + 2], forceEit), data[p + 3] / 16 * 16 + n / 256 % 16, n % 256] + Kept(data, p)
  }

  // ---------- when the walk ends ----------

  /** The position after n rounds of the loop; it stands still at the end, and where there is no header to read. */
  function Position(data: seq<byte>, q: nat, end: nat, n: nat): nat
    decreases n
  {
    if n == 0 || q >= end || q + 2 > |data| then q
    else Position(data, q + DescriptorLength(data, q), end, n - 1)
  }

  /** No round reads outside the buffer. */
  ghost predicate StaysInside(data: seq<byte>, q: nat, end: nat)
  {
    forall n: nat :: Position(data, q, end, n) < end ==> Inside(data, Position(data, q, end, n))
  }

  /** No descriptor reached has length byte 254, which with the header makes 256, and 0 in a byte. */
  ghost predicate NoneStuck(data: seq<byte>, q: nat, end: nat)
  {
    forall n: nat ::
      var x := Position(data, q, end, n);
      x < end && x + 2 <= |data| ==> data[x + 1] != 254
  }

  /** At a length byte of 254 the loop stays where it is, round after round. */
  lemma {:induction false} StuckForever(data: seq<byte>, q: nat, end: nat, n: nat)
    requires q < end && q + 2 <= |data| && data[q + 1] == 254
    ensures Position(data, q, end, n) == q
  {
    if n > 0 {
      StuckForever(data, q, end, n - 1);
    }
  }

  /** The walk is one that ends and stays inside, if and only if it stays inside and meets no length of 254. */
  lemma {:induction false} WalkableExactlyWhen(data: seq<byte>, q: nat, end: nat)
    ensures Walkable(data, q, end) <==> StaysInside(data, q, end) && NoneStuck(data, q, end)
    decreases end - q
  {
    assert Position(data, q, end, 0) == q;
    if q < end && Inside(data, q) && data[q + 1] != 254 {
      WalkableExactlyWhen(data, q + DescriptorLength(data, q), end);
      FromNext(data, q, end);
    }
  }

  lemma FromNext(data: seq<byte>, q: nat, end: nat)
    requires q < end && Inside(data, q) && data[q + 1] != 254
    ensures var next := q + DescriptorLength(data, q);
      && (StaysInside(data, q, end) <==> StaysInside(data, next, end))
      && (NoneStuck(data, q, end) <==> NoneStuck(data, next, end))
  {
    InsideHeader(data, q);
    hide Inside;
    var next := q + DescriptorLength(data, q);
    assert forall n: nat :: Position(data, next, end, n) == Position(data, q, end, n + 1);
    assert forall n: nat :: n > 0 ==> Position(data, q, end, n) == Position(data, next, end, n - 1);
  }

  lemma InsideHeader(data: seq<byte>, q: nat)
    requires Inside(data, q)
    ensures q + 2 <= |data|
  {
  }

  /** A walk that stays inside reaches the end, if and only if it meets no length of 254. */
  lemma EndsExactlyWhen(data: seq<byte>, q: nat, end: nat)
    requires StaysInside(data, q, end)
    ensures (exists n: nat :: Position(data, q, end, n) >= end) <==> NoneStuck(data, q, end)
  {
    if NoneStuck(data, q, end) {
      WalkableExactlyWhen(data, q, end);
      var n := Rounds(data, q, end);
    } else {
      var m: nat :| Position(data, q, end, m) < end && Position(data, q, end, m) + 2 <= |data|
        && data[Position(data, q, end, m) + 1] == 254;
      forall n: nat ensures Position(data, q, end, n) < end {
        StuckFromThen(data, q, end, m, n);
      }
    }
  }

  lemma {:induction false} Rounds(data: seq<byte>, q: nat, end: nat) returns (n: nat)
    requires Walkable(data, q, end)
    ensures Position(data, q, end, n) >= end
    decreases end - q
  {
    n := 0;
    if q < end {
      var m := Rounds(data, q + DescriptorLength(data, q), end);
      n := m + 1;
    }
  }

  lemma {:induction false} StuckFromThen(data: seq<byte>, q: nat, end: nat, m: nat, n: nat)
    requires var x := Position(data, q, end, m); x < end && x + 2 <= |data| && data[x + 1] == 254
    ensures Position(data, q, end, n) < end
    decreases m
  {
    if m == 0 || q >= end || q + 2 > |data| {
      StuckForever(data, q, end, n);
    } else if n > 0 {
      StuckFromThen(data, q + DescriptorLength(data, q), end, m - 1, n - 1);
    } else {
      NeverBack(data, q, end, m);
    }
  }

  lemma {:induction false} NeverBack(data: seq<byte>, q: nat, end: nat, m: nat)
    ensures Position(data, q, end, m) >= q
    decreases m
  {
    if m > 0 && q < end && q + 2 <= |data| {
      NeverBack(data, q + DescriptorLength(data, q), end, m - 1);
    }
  }

  // ---------- reading encoded services ----------

  /** data holds bytes at p. */
  predicate At(data: seq<byte>, p: nat, bytes: seq<byte>)
  {
    p + |bytes| <= |data| && data[p..p + |bytes|] == bytes
  }

  lemma AtSplit(data: seq<byte>, p: nat, a: seq<byte>, b: seq<byte>)
    requires At(data, p, a + b)
    ensures At(data, p, a) && At(data, p + |a|, b)
  {
    assert data[p..p + |a|] == data[p..p + |a + b|][..|a|];
    assert data[p + |a|..p + |a| + |b|] == data[p..p + |a + b|][|a|..];
  }

  lemma AtIndex(data: seq<byte>, p: nat, bytes: seq<byte>, i: nat)
    requires At(data, p, bytes) && i < |bytes|
    ensures data[p + i] == bytes[i]
  {
    assert data[p + i] == data[p..p + |bytes|][i];
  }

  lemma FilteredStep(data: seq<byte>, q: nat, end: nat, d: Descriptor)
    requires At(data, q, d) && q < end && Walkable(data, q + |d|, end)
    ensures Walkable(data, q, end)
    ensures Filtered(data, q, end) == (if IsAllowed(d[0]) then d else []) + Filtered(data, q + |d|, end)
  {
    hide IsAllowed;
    AtIndex(data, q, d, 0);
    AtIndex(data, q, d, 1);
    AtBounds(data, q, d);
    hide At;
    assert DescriptorLength(data, q) == |d|;
    hide DescriptorLength;
  }

  lemma AllowedStep(ds: seq<Descriptor>)
    requires ds != []
    ensures Flatten(Allowed(ds)) == (if IsAllowed(ds[0][0]) then ds[0] else []) + Flatten(Allowed(ds[1..]))
  {
    hide IsAllowed;
    FlattenAppend(if IsAllowed(ds[0][0]) then [ds[0]] else [], Allowed(ds[1..]));
    FlattenOne(ds[0]);
  }

  /** The walk visits every descriptor once and keeps the allowed ones, in order. */
  lemma {:induction false} FilteredIsFilter(data: seq<byte>, q: nat, end: nat, ds: seq<Descriptor>)
    requires At(data, q, Flatten(ds)) && end == q + |Flatten(ds)|
    ensures Walkable(data, q, end)
    ensures Filtered(data, q, end) == Flatten(Allowed(ds))
    decreases |ds|
  {
    hide *;
    if ds == [] {
      NothingFiltered(data, q);
    } else {
      FlattenFirst(ds);
      AllowedStep(ds);
      var d, rest := ds[0], ds[1..];
      AtSplit(data, q, d, Flatten(rest));
      FilteredIsFilter(data, q + |d|, end, rest);
      FilteredStep(data, q, end, d);
    }
  }

  lemma NothingFiltered(data: seq<byte>, q: nat)
    ensures |Flatten<byte>([])| == 0 && Walkable(data, q, q) && Filtered(data, q, q) == Flatten(Allowed([]))
  {
  }

  lemma FlattenFirst(ds: seq<Descriptor>)
    requires ds != []
    ensures Flatten(ds) == ds[0] + Flatten(ds[1..])
  {
  }

  lemma AtBounds(data: seq<byte>, q: nat, d: seq<byte>)
    requires At(data, q, d)
    ensures q + |d| <= |data| && data[q..q + |d|] == d
  {
  }

  /** An encoded service is read back field by field. */
  lemma ReadService(data: seq<byte>, p: nat, s: Service)
    requires At(data, p, Encode(s))
    ensures p + SDT_DESCR_LEN <= |data|
    ensures ServiceId(data, p) == s.id && LoopLength(data, p) == |Flatten(s.descriptors)| == |Encode(s)| - SDT_DESCR_LEN
    ensures data[p + 2] == s.flags && data[p + 3] / 16 * 16 == s.status
    ensures At(data, p + SDT_DESCR_LEN, Flatten(s.descriptors))
  {
    hide At, Flatten;
    var n := |Flatten(s.descriptors)|;
    var head: seq<byte> := [s.id / 256, s.id % 256, s.flags, s.status + n / 256, n % 256];
    assert Encode(s) == head + Flatten(s.descriptors);
    AtSplit(data, p, head, Flatten(s.descriptors));
    AtBounds(data, p, head);
    FiveBytes(data, p, head);
    StatusRead(s.status, n);
  }

  lemma FiveBytes(data: seq<byte>, p: nat, head: seq<byte>)
    requires |head| == 5 && p + 5 <= |data| && data[p..p + 5] == head
    ensures data[p] == head[0] && data[p + 1] == head[1] && data[p + 2] == head[2]
    ensures data[p + 3] == head[3] && data[p + 4] == head[4]
  {
    assert data[p] == data[p..p + 5][0] && data[p + 1] == data[p..p + 5][1] && data[p + 2] == data[p..p + 5][2];
    assert data[p + 3] == data[p..p + 5][3] && data[p + 4] == data[p..p + 5][4];
  }

  /** Four bits of status before the high four bits of a length. */
  lemma StatusRead(status: byte, n: nat)
    requires status % 16 == 0 && n < 4096
    ensures (status + n / 256) / 16 * 16 == status && (status + n / 256) % 16 == n / 256 && n / 256 * 256 + n % 256 == n
  {
  }

  /** The entry written for a service that fits is the announced service, encoded. */
  lemma EntryIsAnnounced(data: seq<byte>, p: nat, s: Service, forceEit: bool)
    requires At(data, p, Encode(s))
    ensures p + SDT_DESCR_LEN <= |data| && Walkable(data, p + SDT_DESCR_LEN, p + SDT_DESCR_LEN + LoopLength(data, p))
    ensures Kept(data, p) == Flatten(Allowed(s.descriptors))
    ensures |Kept(data, p)| <= MAX_LOOP ==> Entry(data, p, forceEit) == Encode(Announced(s, forceEit))
  {
    hide At, Flatten, Allowed;
    ReadService(data, p, s);
    FilteredIsFilter(data, p + SDT_DESCR_LEN, p + SDT_DESCR_LEN + LoopLength(data, p), s.descriptors);
    SameId(data, p, s);
  }

  lemma SameId(data: seq<byte>, p: nat, s: Service)
    requires p + SDT_DESCR_LEN <= |data| && ServiceId(data, p) == s.id
    ensures data[p] == s.id / 256 && data[p + 1] == s.id % 256
  {
  }

  /** The search stops at the wanted service, or finds none when there is none. */
  lemma {:induction false} SearchFinds(data: seq<byte>, p: nat, services: seq<Service>, sectionLength: nat, id: int,
    forceEit: bool)
    requires At(data, p, EncodeAll(services)) && sectionLength == p + |EncodeAll(services)| + 1
    ensures Searchable(data, p, sectionLength, id)
    ensures var r := Search(data, p, sectionLength, id);
      && (r.None? <==> Wanted(services, id).None?)
      && (r.Some? ==> Entry(data, r.value, forceEit) == Encode(Announced(Wanted(services, id).value, forceEit)))
    decreases |services|
  {
    hide At, Flatten, Allowed, Kept, Entry, Encode, Walkable, LoopLength, ServiceId;
    if services != [] {
      var s := services[0];
      assert s in services;
      AtSplit(data, p, Encode(s), EncodeAll(services[1..]));
      ReadService(data, p, s);
      EntryIsAnnounced(data, p, s, forceEit);
      SearchFinds(data, p + |Encode(s)|, services[1..], sectionLength, id, forceEit);
    }
  }

  // ---------- whole sections ----------

  /** A description table of the services: header, entries, checksum. */
  ghost predicate Lists(section: seq<byte>, services: seq<Service>)
  {
    && IsSection(section) && section[0] == SDT_TABLE
    && |section| == SDT_LEN + |EncodeAll(services)| + 4
    && section[SDT_LEN..|section| - 4] == EncodeAll(services)
  }

  /** The buffer holds such a table, whatever its checksum. */
  ghost predicate Holds(data: seq<byte>, services: seq<Service>)
  {
    && |data| == MAX_TS_SIZE && data[0] == SDT_TABLE
    && SectionLength(data) == SDT_LEN + |EncodeAll(services)| + 1
    && At(data, SDT_LEN, EncodeAll(services))
  }

  /** A stored section stays readable when its header is made current. */
  lemma ListedIsHeld(data: seq<byte>, section: seq<byte>, services: seq<Service>)
    requires |data| == MAX_TS_SIZE && Lists(section, services) && data[..|section|] == section
    ensures Holds(OnlySection(data), services)
  {
    HeldEntries(data, section, |EncodeAll(services)|);
    HeaderOnly(data, |EncodeAll(services)|);
    HeldHeader(data, section);
    hide EncodeAll, Accepts, OnlySection;
  }

  lemma HeldHeader(data: seq<byte>, section: seq<byte>)
    requires |data| == MAX_TS_SIZE && 3 <= |section| <= |data| && data[..|section|] == section
    ensures data[0] == section[0] && data[1] == section[1] && data[2] == section[2]
    ensures var now := OnlySection(data); now[0] == section[0] && SectionLength(now) == SectionLength(section)
  {
    assert section[0] == data[..|section|][0] && section[1] == data[..|section|][1];
    assert section[2] == data[..|section|][2];
  }

  lemma HeldEntries(data: seq<byte>, section: seq<byte>, n: nat)
    requires |section| == SDT_LEN + n + 4 <= |data| && data[..|section|] == section
    ensures data[SDT_LEN..SDT_LEN + n] == section[SDT_LEN..|section| - 4]
  {
    var a, b := data[SDT_LEN..SDT_LEN + n], section[SDT_LEN..|section| - 4];
    forall i | 0 <= i < n ensures a[i] == b[i] {
      assert data[SDT_LEN + i] == data[..|section|][SDT_LEN + i];
    }
  }

  /** Making the header current leaves the entries alone. */
  lemma HeaderOnly(data: seq<byte>, n: nat)
    requires SDT_LEN + n <= |data|
    ensures OnlySection(data)[SDT_LEN..SDT_LEN + n] == data[SDT_LEN..SDT_LEN + n]
  {
    var a, b := OnlySection(data)[SDT_LEN..SDT_LEN + n], data[SDT_LEN..SDT_LEN + n];
    forall i | 0 <= i < n ensures a[i] == b[i] {
      assert OnlySection(data)[SDT_LEN + i] == data[SDT_LEN + i];
    }
  }

  /** The body of the generated table. */
  function SdtBody(data: seq<byte>, p: nat, forceEit: bool): (b: seq<byte>)
    requires |data| >= SDT_LEN && p + SDT_DESCR_LEN <= |data|
    requires Walkable(data, p + SDT_DESCR_LEN, p + SDT_DESCR_LEN + LoopLength(data, p))
  {
    data[..SDT_LEN] + Entry(data, p, forceEit)
  }

  /** A stored table is searched as the list it encodes. */
  lemma HeldIsSearched(data: seq<byte>, services: seq<Service>, id: int, forceEit: bool)
    requires Holds(data, services)
    ensures Searchable(data, SDT_LEN, SectionLength(data), id)
    ensures var r := Search(data, SDT_LEN, SectionLength(data), id);
      && (r.None? <==> Wanted(services, id).None?)
      && (r.Some? ==> Entry(data, r.value, forceEit) == Encode(Announced(Wanted(services, id).value, forceEit)))
  {
    hide EncodeAll, Entry, Search, Searchable, Wanted, Walkable;
    SearchFinds(data, SDT_LEN, services, SectionLength(data), id, forceEit);
  }

  /** The section written for the entry that the search finds: header, entry, checksum. */
  ghost predicate Generated(generated: seq<byte>, data: seq<byte>, id: int, forceEit: bool)
    requires |data| == MAX_TS_SIZE
  {
    && Searchable(data, SDT_LEN, SectionLength(data), id)
    && var r := Search(data, SDT_LEN, SectionLength(data), id);
       r.Some? && Sealed(generated, SdtBody(data, r.value, forceEit))
  }

  /** The generated section lists exactly the announced service, and passes the check. */
  lemma GeneratedLists(generated: seq<byte>, data: seq<byte>, services: seq<Service>, id: int, forceEit: bool)
    requires Holds(data, services) && Generated(generated, data, id, forceEit)
    ensures Wanted(services, id).Some? && Lists(generated, [Announced(Wanted(services, id).value, forceEit)])
  {
    hide Searchable, Search, Wanted, Walkable, Accepts, Entry, Crc;
    HeldIsSearched(data, services, id, forceEit);
    var p := Search(data, SDT_LEN, SectionLength(data), id).value;
    var s := Announced(Wanted(services, id).value, forceEit);
    var body := SdtBody(data, p, forceEit);
    EntryLength(data, p, forceEit);
    SealedIsSection(generated, body);
    SealedTail(generated, body, SDT_LEN, |body|);
    OneEncoded(s);
    hide Encode, Sealed;
    assert body[SDT_LEN..|body|] == Entry(data, p, forceEit);
  }

  lemma OneEncoded(s: Service)
    ensures EncodeAll([s]) == Encode(s)
  {
    hide Encode;
    assert EncodeAll([s]) == Encode(s) + EncodeAll([]);
  }

  lemma EntryLength(data: seq<byte>, p: nat, forceEit: bool)
    requires p + SDT_DESCR_LEN <= |data| && Walkable(data, p + SDT_DESCR_LEN, p + SDT_DESCR_LEN + LoopLength(data, p))
    ensures |Entry(data, p, forceEit)| == SDT_DESCR_LEN + |Kept(data, p)|
  {
  }

  /** The reassembler gets exactly the generated section if and only if the reused header has no adaptation field. */
  lemma GeneratedIsReassembled(p: Packet, buf: seq<byte>, generated: seq<byte>, data: seq<byte>, id: int,
    forceEit: bool)
    requires |buf| == TS_PACKET_SIZE && |data| == MAX_TS_SIZE && Generated(generated, data, id, forceEit)
    requires CarriesOne(p, TsHeader(buf), generated)
    ensures (forall partial :: Feed(partial, p) == Outcome(Idle, [generated])) <==> Afc(buf) < 2
  {
    hide Searchable, Search, Walkable, Entry, Feed;
    var at := Search(data, SDT_LEN, SectionLength(data), id).value;
    EntryLength(data, at, forceEit);
    OneReassembled(p, buf, generated, SdtBody(data, at, forceEit));
  }

  // ---------- what else the generated section says ----------

  /** The flags of a service: six reserved bits, then whether there is a schedule, and present and following events. */
  function FlagsByte(reserved: nat, schedule: bool, presentFollowing: bool): byte
    requires reserved < 64
  {
    reserved * 4 + (if schedule then 2 else 0) + if presentFollowing then 1 else 0
  }

  /** Both flags are set if that is asked for; otherwise they stay as they are. */
  lemma FlagsForced(reserved: nat, schedule: bool, presentFollowing: bool, forceEit: bool)
    requires reserved < 64
    ensures Flags(FlagsByte(reserved, schedule, presentFollowing), forceEit)
         == FlagsByte(reserved, forceEit || schedule, forceEit || presentFollowing)
  {
  }

  lemma AllowedTags(tag: byte)
    ensures IsAllowed(tag) <==>
      tag == 0x47 || tag == 0x48 || tag == 0x50 || tag == 0x51 || tag == 0x53 || tag == 0x5D || tag == 0x6E
  {
    if tag == 0x47 { assert ALLOWED_TAGS[0] == tag; }
    if tag == 0x48 { assert ALLOWED_TAGS[1] == tag; }
    if tag == 0x50 { assert ALLOWED_TAGS[2] == tag; }
    if tag == 0x51 { assert ALLOWED_TAGS[3] == tag; }
    if tag == 0x53 { assert ALLOWED_TAGS[4] == tag; }
    if tag == 0x5D { assert ALLOWED_TAGS[5] == tag; }
    if tag == 0x6E { assert ALLOWED_TAGS[6] == tag; }
  }

  /** The generated section is of the stored table's transport stream, version and network, current, number 0 of 0. */
  lemma GeneratedHeader(generated: seq<byte>, data: seq<byte>, id: int, forceEit: bool)
    requires |data| == MAX_TS_SIZE && Generated(generated, OnlySection(data), id, forceEit)
    ensures |generated| >= SDT_LEN && generated[0] == data[0] && generated[3] == data[3] && generated[4] == data[4]
    ensures generated[5] / 2 == data[5] / 2 && generated[5] % 2 == 1 && generated[6] == 0 && generated[7] == 0
    ensures generated[8..SDT_LEN] == data[8..SDT_LEN]
  {
    hide Searchable, Search, Walkable, Entry, Sealed;
    var now := OnlySection(data);
    var p := Search(now, SDT_LEN, SectionLength(now), id).value;
    var body := SdtBody(now, p, forceEit);
    EntryLength(now, p, forceEit);
    SealedIsSection(generated, body);
    assert body[..SDT_LEN] == now[..SDT_LEN];
    SealedByte(generated, body, 3);
    SealedByte(generated, body, 4);
    SealedByte(generated, body, 5);
    SealedByte(generated, body, 6);
    SealedByte(generated, body, 7);
    SealedTail(generated, body, 8, SDT_LEN);
    hide OnlySection;
    HeaderOf(body, now);
    CurrentHeader(data);
  }

  lemma HeaderOf(body: seq<byte>, now: seq<byte>)
    requires |body| >= SDT_LEN && |now| >= SDT_LEN && body[..SDT_LEN] == now[..SDT_LEN]
    ensures forall i :: 0 <= i < SDT_LEN ==> body[i] == now[i]
    ensures body[8..SDT_LEN] == now[8..SDT_LEN]
  {
    assert forall i :: 0 <= i < SDT_LEN ==> body[i] == body[..SDT_LEN][i] == now[..SDT_LEN][i];
  }

  lemma CurrentHeader(data: seq<byte>)
    requires |data| >= SDT_LEN
    ensures var now := OnlySection(data);
      && now[0] == data[0] && now[3] == data[3] && now[4] == data[4] && now[5] / 2 == data[5] / 2 && now[5] % 2 == 1
      && now[6] == 0 && now[7] == 0 && now[8..SDT_LEN] == data[8..SDT_LEN]
  {
  }

  /** The longest loop is the longest that leaves a byte of the packet free: headers, entry and checksum take 25. */
  lemma LongestLoop(n: nat)
    ensures n <= MAX_LOOP <==> 5 + 11 + 5 + n + 4 < 188
  {
  }
}

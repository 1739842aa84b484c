/** What storing a section leaves alone: the other sections of its table, and every other table. */
module EitKeeps {
  import opened Bytes
  import opened EitCursor
  import opened EitStore

  // ---------- the header of a section ----------

  /** The first eight bytes of a section of a table with a service id (EN 300 468 section 5.2.4). */
  function SectionHeader(tid: byte, length: nat, sid: nat, version: nat, current: bool, number: byte, last: byte):
    (h: seq<byte>)
    requires length < 4096 && sid < 65536 && version < 32
    ensures |h| == 8
  {
    [tid, 0xf0 + length / 256, length % 256, sid / 256, sid % 256, 0xc0 + version * 2 + if current then 1 else 0,
     number, last]
  }

  /** Every field is read as it was written. */
  lemma HeaderRead(d: Image, tid: byte, length: nat, sid: nat, version: nat, current: bool, number: byte, last: byte)
    requires length < 4096 && sid < 65536 && version < 32
    requires SectionHeader(tid, length, sid, version, current, number, last) <= d
    ensures TableId(d) == tid && ServiceId(d) == sid && Version(d) == version && CurrentNext(d) == current
    ensures SectionNumber(d) == number as nat && LastSectionNumber(d) == last as nat
  {
    var h := SectionHeader(tid, length, sid, version, current, number, last);
    assert forall i :: 0 <= i < 8 ==> d[i] == h[i];
  }

  // ---------- when a section is wanted ----------

  /** A section is wanted if it is an applicable EIT section that readers do not find in its version. */
  lemma WantedExactlyWhen(es: seq<StoreEntry>, d: Image)
    requires StoreOk(es)
    ensures NeedUpdate(es, d) <==>
      && IsEitTable(TableId(d)) && CurrentNext(d)
      && var found := Lookup(es, ServiceId(d), TableId(d), SectionNumber(d));
         found.None? || Version(found.value.data) != Version(d)
  {
    var r := Find(es, ServiceId(d), TableId(d));
    if r.Some? {
      assert EntryOk(es[r.value]);
    }
  }

  // ---------- one section stored ----------

  /** Storing the section clears the entry that readers see: it is not the last one, and has another version. */
  predicate Clears(es: seq<StoreEntry>, c: Copy)
  {
    var r := Find(es, ServiceId(c.data), TableId(c.data));
    r.Some? && r.value < |es| - 1 && es[r.value].version != Version(c.data)
  }

  lemma {:induction false} FindReplaced(es: seq<StoreEntry>, i: nat, e: StoreEntry, sid: nat, tid: byte)
    requires i < |es| && (HasKey(es[i], sid, tid) <==> HasKey(e, sid, tid))
    ensures Find(es[i := e], sid, tid) == Find(es, sid, tid)
  {
    if i > 0 {
      FindReplaced(es[1..], i - 1, e, sid, tid);
      assert es[i := e][1..] == es[1..][i - 1 := e];
    } else {
      assert es[i := e][1..] == es[1..];
    }
  }

  lemma {:induction false} FindAppended(es: seq<StoreEntry>, e: StoreEntry, sid: nat, tid: byte)
    ensures Find(es + [e], sid, tid)
         == if Find(es, sid, tid).Some? then Find(es, sid, tid)
            else if HasKey(e, sid, tid) then Some(|es|) else None
  {
    if es == [] {
      assert es + [e] == [e] && [e][1..] == [];
    } else {
      assert (es + [e])[1..] == es[1..] + [e];
      FindAppended(es[1..], e, sid, tid);
    }
  }

  /** Sections of other services and tables are found as before. */
  lemma OtherTablesKept(es: seq<StoreEntry>, c: Copy, sid: nat, tid: byte, n: nat)
    requires sid != ServiceId(c.data) || tid != TableId(c.data)
    ensures Lookup(Update(es, c), sid, tid, n) == Lookup(es, sid, tid, n)
  {
    hide Filled, WriteIndex;
    var i := WriteIndex(es, ServiceId(c.data), TableId(c.data));
    if i < |es| {
      FilledHas(es[i], c);
      FindReplaced(es, i, Filled(es[i], c), sid, tid);
    } else {
      FilledHas(BLANK, c);
      FindAppended(es, Filled(BLANK, c), sid, tid);
    }
  }

  /** What an entry holds after a section of its key was put in it. */
  lemma FilledHolds(e: StoreEntry, c: Copy, n: nat)
    ensures var f := Filled(e, c);
      && f.version == Version(c.data) && f.last == LastSectionNumber(c.data)
      && (n != SectionNumber(c.data) ==>
            (n in f.sections <==> n in e.sections && Version(c.data) == e.version)
            && (n in f.sections ==> f.sections[n] == e.sections[n]))
  {
  }

  /** The other sections of its own table are found as before, unless storing it clears the table. */
  lemma OtherSectionsKept(es: seq<StoreEntry>, c: Copy, n: nat)
    requires n != SectionNumber(c.data)
    ensures Lookup(Update(es, c), ServiceId(c.data), TableId(c.data), n)
         == if Clears(es, c) then None else Lookup(es, ServiceId(c.data), TableId(c.data), n)
  {
    hide Filled, WriteIndex;
    var sid, tid := ServiceId(c.data), TableId(c.data);
    var i := WriteIndex(es, sid, tid);
    if i < |es| {
      FilledHas(es[i], c);
      FilledHolds(es[i], c, n);
      FindReplaced(es, i, Filled(es[i], c), sid, tid);
      FindIs(es, i, sid, tid);
    } else {
      FilledHas(BLANK, c);
      FilledHolds(BLANK, c, n);
      FindAppended(es, Filled(BLANK, c), sid, tid);
      NoneBeforeLast(es, sid, tid);
    }
  }

  lemma NoneBeforeLast(es: seq<StoreEntry>, sid: nat, tid: byte)
    requires WriteIndex(es, sid, tid) == |es|
    ensures Find(es, sid, tid).Some? ==> Find(es, sid, tid).value == |es| - 1
  {
  }

  /** The entry readers see says what the section stored last in it says: its version and last number. */
  lemma EntryFollows(es: seq<StoreEntry>, c: Copy)
    requires StoreOk(es) && NeedUpdate(es, c.data)
    requires Lookup(Update(es, c), ServiceId(c.data), TableId(c.data), SectionNumber(c.data)) == Some(c)
    ensures var now := Update(es, c);
      var r := Find(now, ServiceId(c.data), TableId(c.data));
      r.Some? && now[r.value].version == Version(c.data) && now[r.value].last == LastSectionNumber(c.data)
  {
    hide Filled, StoreOk, NeedUpdate;
    var i := WriteIndex(es, ServiceId(c.data), TableId(c.data));
    StoredIsReadable(es, c);
    if i < |es| {
      FillSeen(es, c, i);
      FilledHas(es[i], c);
      FilledHolds(es[i], c, 0);
      FindReplaced(es, i, Filled(es[i], c), ServiceId(c.data), TableId(c.data));
    } else {
      FilledHas(BLANK, c);
      FilledHolds(BLANK, c, 0);
      NoneBeforeLast(es, ServiceId(c.data), TableId(c.data));
      FindAppended(es, Filled(BLANK, c), ServiceId(c.data), TableId(c.data));
    }
  }

  // ---------- runs ----------

  /** The copies hold no section of the table in another version. */
  predicate SameVersion(cs: seq<Copy>, x: Image)
  {
    forall c :: c in cs && ServiceId(c.data) == ServiceId(x) && TableId(c.data) == TableId(x) ==>
      Version(c.data) == Version(x)
  }

  /** x is found where it belongs. */
  predicate Readable(es: seq<StoreEntry>, x: Copy)
  {
    Lookup(es, ServiceId(x.data), TableId(x.data), SectionNumber(x.data)) == Some(x)
  }

  lemma OneMoreKeeps(es: seq<StoreEntry>, x: Copy, c: Copy)
    requires StoreOk(es) && Readable(es, x) && SameVersion([c], x.data) && NeedUpdate(es, c.data)
    ensures Readable(Update(es, c), x)
  {
    var sid, tid, n := ServiceId(x.data), TableId(x.data), SectionNumber(x.data);
    assert c in [c];
    assert EntryOk(es[Find(es, sid, tid).value]);
    hide StoreOk, EntryOk, Filled, Update;
    if ServiceId(c.data) != sid || TableId(c.data) != tid {
      OtherTablesKept(es, c, sid, tid, n);
    } else {
      assert SectionNumber(c.data) != n;
      OtherSectionsKept(es, c, n);
    }
  }

  /**
   In every run: a section that is found stays found, the very same copy, until a section of its table in
   another version comes, whatever else is received.
   */
  lemma {:induction false} ReadableStays(cs: seq<Copy>, more: seq<Copy>, x: Copy)
    requires Readable(Received(cs), x) && SameVersion(more, x.data)
    ensures Readable(Received(cs + more), x)
    decreases |more|
  {
    if more == [] {
      assert cs + more == cs;
    } else {
      var past, c := more[..|more| - 1], more[|more| - 1];
      ReadableStays(cs, past, x);
      ReceivedOk(cs + past);
      assert cs + more == (cs + past) + [c];
      ReceivedNext(cs + past, c);
      hide *;
      LastOfSameVersion(more, x.data);
      if NeedUpdate(Received(cs + past), c.data) {
        OneMoreKeeps(Received(cs + past), x, c);
      }
    }
  }

  lemma LastOfSameVersion(cs: seq<Copy>, x: Image)
    requires cs != [] && SameVersion(cs, x)
    ensures SameVersion([cs[|cs| - 1]], x) && SameVersion(cs[..|cs| - 1], x)
  {
  }

  /** And when such a section comes that is stored where readers look, all the old version's sections are gone. */
  lemma NewVersionReplaces(es: seq<StoreEntry>, x: Copy, c: Copy)
    requires StoreOk(es) && Readable(es, x) && NeedUpdate(es, c.data)
    requires ServiceId(c.data) == ServiceId(x.data) && TableId(c.data) == TableId(x.data)
    requires Version(c.data) != Version(x.data)
    ensures Readable(Update(es, c), x) <==> Find(es, ServiceId(x.data), TableId(x.data)).value == |es| - 1
  {
    var sid, tid, n := ServiceId(x.data), TableId(x.data), SectionNumber(x.data);
    var i := Find(es, sid, tid).value;
    assert EntryOk(es[i]);
    StoredIsReadable(es, c);
    if SectionNumber(c.data) != n {
      OtherSectionsKept(es, c, n);
    } else if i == |es| - 1 {
      AppendedUnseen(es, c);
    }
  }

  lemma AppendedUnseen(es: seq<StoreEntry>, c: Copy)
    requires Find(es, ServiceId(c.data), TableId(c.data)) == Some(|es| - 1)
    ensures forall n: nat :: Lookup(Update(es, c), ServiceId(c.data), TableId(c.data), n)
                          == Lookup(es, ServiceId(c.data), TableId(c.data), n)
  {
    hide Filled;
    FindAppended(es, Filled(BLANK, c), ServiceId(c.data), TableId(c.data));
  }
}

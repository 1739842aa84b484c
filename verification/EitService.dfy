/** From the store to the channel: what a channel sends is a stored section of its own service. */
module EitService {
  import opened Bytes
  import opened EitCursor
  import opened EitStore

  /** Each entry has a section whose number does not exceed the entry's last one. */
  ghost predicate Sendable(e: StoreEntry)
  {
    e.last < 256 && exists n :: n in e.sections && n <= e.last
  }

  ghost predicate AllSendable(es: seq<StoreEntry>)
  {
    forall i :: 0 <= i < |es| ==> Sendable(es[i])
  }

  predicate Numbered(c: Copy)
  {
    SectionNumber(c.data) <= LastSectionNumber(c.data)
  }

  lemma FilledSendable(e: StoreEntry, c: Copy)
    requires Numbered(c)
    ensures Sendable(Filled(e, c))
  {
    assert SectionNumber(c.data) in Filled(e, c).sections;
  }

  /** Sections numbered within their own range leave something to send in every entry. */
  lemma {:induction false} ReceivedSendable(cs: seq<Copy>)
    requires forall c :: c in cs ==> Numbered(c)
    ensures AllSendable(Received(cs))
  {
    if cs != [] {
      hide Filled, NeedUpdate, Numbered, Sendable;
      var es, c := Received(cs[..|cs| - 1]), cs[|cs| - 1];
      ReceivedSendable(cs[..|cs| - 1]);
      var i := WriteIndex(es, ServiceId(c.data), TableId(c.data));
      FilledSendable(if i < |es| then es[i] else BLANK, c);
    }
  }

  /** Last section numbers are those of one byte. */
  ghost predicate LastFits(es: seq<StoreEntry>)
  {
    forall i :: 0 <= i < |es| ==> es[i].last < 256
  }

  lemma {:induction false} ReceivedLastFits(cs: seq<Copy>)
    ensures LastFits(Received(cs))
  {
    if cs != [] {
      ReceivedLastFits(cs[..|cs| - 1]);
    }
  }

  /** What a channel with the service id finds in the store, table by table. */
  ghost function ViewOf(es: seq<StoreEntry>, sid: nat): (v: View)
    requires LastFits(es)
    ensures forall t :: 0 <= t < TABLES ==>
      v[t] == match Find(es, sid, TableOf(t))
              case None => None
              case Some(i) => Some(Entry(es[i].last, es[i].sections.Keys))
  {
    seq(TABLES, t requires 0 <= t < TABLES =>
      match Find(es, sid, TableOf(t))
      case None => None
      case Some(i) => Some(Entry(es[i].last, es[i].sections.Keys)))
  }

  lemma ViewIsNonEmpty(es: seq<StoreEntry>, sid: nat)
    requires AllSendable(es)
    ensures LastFits(es) && NonEmpty(ViewOf(es, sid))
  {
    var v := ViewOf(es, sid);
    forall t | 0 <= t < TABLES && v[t].Some? ensures exists s :: s in v[t].value.stored && s <= v[t].value.last {
      var i := Find(es, sid, TableOf(t)).value;
      assert Sendable(es[i]);
      var n :| n in es[i].sections && n <= es[i].last;
      assert n in v[t].value.stored;
    }
  }

  /** The copy is one of the service, with the table id and section number of position k. */
  predicate IsOwn(x: Copy, sid: nat, k: nat)
    requires k / 256 < TABLES
  {
    var d := x.data;
    ServiceId(d) == sid && TableId(d) == TableOf(k / 256) && SectionNumber(d) == k % 256 && CurrentNext(d)
  }

  /**
   Over any sections received: what a channel sends is a stored section of its service, under its
   own table and number, and 17 attempts send something exactly when there is something to send.
   */
  lemma SentIsOwn(cs: seq<Copy>, sid: nat, c: Cursor)
    requires CursorOk(c)
    ensures LastFits(Received(cs))
    ensures var es := Received(cs);
      var view, sent := ViewOf(es, sid), Send(ViewOf(es, sid), c).sent;
      && (sent.Some? ==>
            var k := sent.value;
            && k / 256 < TABLES && Lookup(es, sid, TableOf(k / 256), k % 256).Some?
            && IsOwn(Lookup(es, sid, TableOf(k / 256), k % 256).value, sid, k))
      && (FirstSent(view, c, TABLES).Some? <==> exists k :: Stored(view, k))
  {
    hide Received, Send;
    ReceivedLastFits(cs);
    ReceivedOk(cs);
    var es := Received(cs);
    var view := ViewOf(es, sid);
    SendsSoon(view, c, TABLES);
    SentIsStored(view, c);
    var sent := Send(view, c).sent;
    if sent.Some? {
      StoredParts(view, sent.value);
      var i, n := Find(es, sid, TableOf(sent.value / 256)).value, sent.value % 256;
      assert EntryOk(es[i]) && n in es[i].sections;
    }
  }

  /** Sections numbered within their own range: every attempt sends something if there is anything to send. */
  lemma NumberedSentAtOnce(cs: seq<Copy>, sid: nat, c: Cursor)
    requires CursorOk(c) && forall x :: x in cs ==> Numbered(x)
    ensures LastFits(Received(cs))
    ensures var view := ViewOf(Received(cs), sid); Send(view, c).sent.Some? <==> exists k :: Stored(view, k)
  {
    hide Received, Send;
    ReceivedSendable(cs);
    ViewIsNonEmpty(Received(cs), sid);
    SendsStored(ViewOf(Received(cs), sid), c);
  }

  /**
   Over any sections received: a channel's sends are fair exactly when each of its visible tables
   has its last section stored, or it has one table, or nothing is stored that could be sent.
   */
  lemma ServedFairly(cs: seq<Copy>, sid: nat)
    ensures LastFits(Received(cs))
    ensures var v := ViewOf(Received(cs), sid);
      Fair(v) <==> AllLast(v) || OneTable(v) || forall k :: !Stored(v, k)
  {
    hide Received, Fair, Keys, Stored;
    ReceivedLastFits(cs);
    var v := ViewOf(Received(cs), sid);
    FairExactlyWhen(v);
    if k: nat :| Stored(v, k) {
      KeysComplete(v, 0, k);
    } else if Keys(v, 0) != [] {
      assert Stored(v, Keys(v, 0)[0]);
    }
  }

  // ---------- a store that is not served fairly ----------

  /** A current section of service 1. */
  function SectionOfOne(tableId: byte, number: byte, last: byte): (c: Copy)
    ensures TableId(c.data) == tableId && ServiceId(c.data) == 1 && CurrentNext(c.data)
    ensures SectionNumber(c.data) == number as nat && LastSectionNumber(c.data) == last as nat
  {
    Copy([tableId, 0xf0, 9, 0, 1, 1, number, last] + Repeat(0, 4088), 12)
  }

  lemma NewEntry(c: Copy)
    ensures var e := Filled(BLANK, c); e.last == LastSectionNumber(c.data) && e.sections.Keys == {SectionNumber(c.data)}
  {
  }

  /**
   Two tables of one service, of the first of which the last section has not come yet: the only
   section of the second is never sent, however often the channel sends.
   */
  lemma UnfairStore() returns (cs: seq<Copy>, starved: nat)
    ensures LastFits(Received(cs)) && forall x :: x in cs ==> Numbered(x)
    ensures var view := ViewOf(Received(cs), 1);
      && Stored(view, starved) && !Fair(view)
      && forall n: nat :: Some(starved) !in Sends(view, Cursor(TableOf(0), 0), n)
  {
    var a, b := SectionOfOne(0x4E, 0, 1), SectionOfOne(0x50, 0, 0);
    cs, starved := [a, b], 256;
    TwoTables(a, b);
    NewEntry(a);
    NewEntry(b);
    ReceivedLastFits(cs);
    var view := ViewOf(Received(cs), 1);
    ViewOfTwo(Received(cs), Filled(BLANK, a), Filled(BLANK, b));
    hide *;
    ServedFairly(cs, 1);
    StarvedView(view);
  }

  lemma ViewOfTwo(es: seq<StoreEntry>, e: StoreEntry, f: StoreEntry)
    requires es == [e, f] && LastFits(es) && Find(es, 1, TableOf(0)) == Some(0) && Find(es, 1, TableOf(1)) == Some(1)
    requires e.last == 1 && e.sections.Keys == {0} && f.last == 0 && f.sections.Keys == {0}
    ensures var view := ViewOf(es, 1); view[0] == Some(Entry(1, {0})) && view[1] == Some(Entry(0, {0}))
  {
  }

  lemma StarvedView(view: View)
    requires view[0] == Some(Entry(1, {0})) && view[1] == Some(Entry(0, {0}))
    ensures Stored(view, 256) && !AllLast(view) && !OneTable(view)
    ensures forall n: nat :: Some(256) !in Sends(view, Cursor(TableOf(0), 0), n)
  {
    StoredAt(view, 1, 0);
    hide Sends;
    forall n: nat ensures Some(256) !in Sends(view, Cursor(TableOf(0), 0), n) {
      Captured(view, 0, 0, n);
    }
  }
}

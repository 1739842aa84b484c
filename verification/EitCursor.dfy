/**
 Which stored EIT section a channel sends next: a cursor over table ids 0x4E, 0x50 ... 0x5F and
 section numbers.  Positions are numbered table * 256 + section, table 0 being 0x4E.
 */
module EitCursor {
  import opened Bytes

  const TABLES: nat := 17
  const POSITIONS: nat := 4352

  // ---------- table ids ----------

  predicate IsEitTable(tableId: byte)
  {
    tableId == 0x4E || 0x50 <= tableId <= 0x5F
  }

  function NextTableId(tableId: byte): byte
    requires tableId < 255
  {
    if tableId == 0 then 0x4E else if tableId == 0x4E then 0x50 else if tableId == 0x5F then 0x4E else tableId + 1
  }

  function Slot(tableId: byte): (t: nat)
    requires IsEitTable(tableId)
    ensures t < TABLES
  {
    if tableId == 0x4E then 0 else tableId as nat - 0x4F
  }

  function TableOf(t: nat): (tableId: byte)
    requires t < TABLES
    ensures IsEitTable(tableId) && Slot(tableId) == t
  {
    if t == 0 then 0x4E else t + 0x4F
  }

  function NextSlot(t: nat): (r: nat)
    requires t < TABLES
    ensures r < TABLES
  {
    if t == TABLES - 1 then 0 else t + 1
  }

  lemma NextTableIsNextSlot(tableId: byte)
    requires IsEitTable(tableId)
    ensures IsEitTable(NextTableId(tableId)) && Slot(NextTableId(tableId)) == NextSlot(Slot(tableId))
  {
  }

  // ---------- what is stored for the channel's service ----------

  /** The visible entry of one table: its last section number and which sections are stored. */
  datatype Entry = Entry(last: nat, stored: set<nat>)

  /** One optional entry a table, by slot. */
  type View = v: seq<Option<Entry>> |
    |v| == TABLES && forall t :: 0 <= t < TABLES && v[t].Some? ==> v[t].value.last < 256
    witness Repeat(None, TABLES)

  datatype Cursor = Cursor(tableId: byte, section: nat)

  /** What a send attempt does: the position sent, if any, and the cursor left. */
  datatype Attempt = Attempt(sent: Option<nat>, cursor: Cursor)

  predicate CursorOk(c: Cursor)
  {
    IsEitTable(c.tableId)
  }

  /** The first table from t on, cyclically, that has an entry. */
  function FindTable(view: View, t: nat, n: nat): (r: Option<nat>)
    requires t < TABLES
    ensures r.Some? ==> r.value < TABLES && view[r.value].Some?
    decreases n
  {
    if n == 0 then None
    else if view[t].Some? then Some(t)
    else FindTable(view, NextSlot(t), n - 1)
  }

  /** (s + 1) % (last + 1) for a section number s of the entry. */
  function NextSection(e: Entry, s: nat): (r: nat)
    requires s <= e.last
    ensures r <= e.last
  {
    if s == e.last then 0 else s + 1
  }

  lemma NextSectionIsModulo(e: Entry, s: nat)
    requires s <= e.last
    ensures NextSection(e, s) == (s + 1) % (e.last + 1)
  {
    if s < e.last {
      SmallModulo(s + 1, e.last + 1);
    }
  }

  lemma SmallModulo(a: nat, n: nat)
    requires a < n
    ensures a % n == a
  {
  }

  /** The first stored section from s on, cyclically within 0..last. */
  function FindSection(e: Entry, s: nat, n: nat): (r: Option<nat>)
    requires s <= e.last
    ensures r.Some? ==> r.value <= e.last && r.value in e.stored
    decreases n
  {
    if n == 0 then None
    else if s in e.stored then Some(s)
    else FindSection(e, NextSection(e, s), n - 1)
  }

  function Send(view: View, c: Cursor): Attempt
    requires CursorOk(c)
  {
    var table := FindTable(view, Slot(c.tableId), TABLES);
    if table.None? then Attempt(None, c)
    else
      var t := table.value;
      var e := view[t].value;
      var section := FindSection(e, c.section % (e.last + 1), e.last + 1);
      if section.None? then Attempt(None, Cursor(NextTableId(TableOf(t)), c.section % (e.last + 1)))
      else Attempt(Some(t * 256 + section.value), After(view, t, section.value))
  }

  /** The cursor after sending section s of table t. */
  function After(view: View, t: nat, s: nat): (c: Cursor)
    requires t < TABLES && view[t].Some? && s <= view[t].value.last
    ensures CursorOk(c)
  {
    var next := NextSection(view[t].value, s);
    NextTableIsNextSlot(TableOf(t));
    Cursor(if next == 0 then NextTableId(TableOf(t)) else TableOf(t), next)
  }

  // ---------- the next stored position ----------

  predicate Stored(view: View, k: nat)
  {
    k < POSITIONS && view[k / 256].Some? && k % 256 <= view[k / 256].value.last && k % 256 in view[k / 256].value.stored
  }

  /** The cursor after sending position k. */
  function AfterKey(view: View, k: nat): (c: Cursor)
    requires Stored(view, k)
    ensures CursorOk(c)
  {
    After(view, k / 256, k % 256)
  }

  /** How far b lies after a, going round n places. */
  function Distance(a: nat, b: nat, n: nat): int
  {
    if b >= a then b - a else b - a + n
  }

  /** r is the first stored position from k on, cyclically. */
  ghost predicate IsNext(view: View, k: nat, r: nat)
  {
    Stored(view, r) && forall j :: Stored(view, j) ==> Distance(k, r, POSITIONS) <= Distance(k, j, POSITIONS)
  }

  lemma {:induction false} FindTableSpec(view: View, t: nat, n: nat)
    requires t < TABLES && n <= TABLES
    ensures var r := FindTable(view, t, n);
            && (r.None? ==> forall j :: 0 <= j < TABLES && view[j].Some? ==> Distance(t, j, TABLES) >= n)
            && (r.Some? ==> Distance(t, r.value, TABLES) < n)
            && (r.Some? ==> forall j :: 0 <= j < TABLES && view[j].Some? ==>
                              Distance(t, r.value, TABLES) <= Distance(t, j, TABLES))
    decreases n
  {
    if n != 0 && view[t].None? {
      FindTableSpec(view, NextSlot(t), n - 1);
    }
  }

  lemma {:induction false} FindSectionSpec(e: Entry, s: nat, n: nat)
    requires s <= e.last && n <= e.last + 1
    ensures var r := FindSection(e, s, n);
            && (r.None? ==> forall j :: 0 <= j <= e.last && j in e.stored ==> Distance(s, j, e.last + 1) >= n)
            && (r.Some? ==> forall j :: 0 <= j <= e.last && j in e.stored ==>
                              Distance(s, r.value, e.last + 1) <= Distance(s, j, e.last + 1))
    decreases n
  {
    if n != 0 && s !in e.stored {
      FindSectionSpec(e, NextSection(e, s), n - 1);
    }
  }

  /** Every visible entry has at least one section to send. */
  ghost predicate NonEmpty(view: View)
  {
    forall t :: 0 <= t < TABLES && view[t].Some? ==> exists s :: s in view[t].value.stored && s <= view[t].value.last
  }

  ghost predicate AllLast(view: View)
  {
    forall t :: 0 <= t < TABLES && view[t].Some? ==> view[t].value.last in view[t].value.stored
  }

  ghost predicate OneTable(view: View)
  {
    forall t, u :: 0 <= t < TABLES && 0 <= u < TABLES && view[t].Some? && view[u].Some? ==> t == u
  }

  lemma StoredAt(view: View, t: nat, s: nat)
    requires t < TABLES && view[t].Some? && s <= view[t].value.last
    ensures Stored(view, t * 256 + s) <==> s in view[t].value.stored
  {
    assert (t * 256 + s) / 256 == t && (t * 256 + s) % 256 == s;
  }

  lemma StoredParts(view: View, k: nat)
    requires Stored(view, k)
    ensures k == k / 256 * 256 + k % 256 && k / 256 < TABLES && view[k / 256].Some?
    ensures k % 256 <= view[k / 256].value.last < 256 && k % 256 in view[k / 256].value.stored
  {
  }

  /** An attempt sends a stored position, or leaves a table that has none for the next table. */
  lemma SentIsStored(view: View, c: Cursor)
    requires CursorOk(c)
    ensures CursorOk(Send(view, c).cursor)
    ensures var a := Send(view, c);
            && (a.sent.Some? ==> Stored(view, a.sent.value) && a.cursor == AfterKey(view, a.sent.value))
            && (a.sent.None? ==>
                  match FindTable(view, Slot(c.tableId), TABLES)
                  case None => forall k :: !Stored(view, k)
                  case Some(t) =>
                    && a.cursor.tableId == NextTableId(TableOf(t))
                    && forall s :: s in view[t].value.stored ==> s > view[t].value.last)
  {
    NextCursorOk(view, c);
    match FindTable(view, Slot(c.tableId), TABLES)
    case None =>
      NothingVisible(view, Slot(c.tableId));
    case Some(t) =>
      hide FindTable, Stored, After, AfterKey;
      SentFromTable(view, t, c.section % (view[t].value.last + 1));
  }

  lemma NothingVisible(view: View, t: nat)
    requires t < TABLES && FindTable(view, t, TABLES).None?
    ensures forall k :: !Stored(view, k)
  {
    FindTableSpec(view, t, TABLES);
    forall k ensures !Stored(view, k) {
      if Stored(view, k) {
        StoredParts(view, k);
      }
    }
  }

  /** What is found in a table is sent from there; nothing is found only if there is nothing. */
  lemma SentFromTable(view: View, t: nat, s: nat)
    requires t < TABLES && view[t].Some? && s <= view[t].value.last
    ensures var e, found := view[t].value, FindSection(view[t].value, s, view[t].value.last + 1);
      && (found.Some? ==>
            Stored(view, t * 256 + found.value)
            && After(view, t, found.value) == AfterKey(view, t * 256 + found.value))
      && (found.None? ==> forall x :: x in e.stored ==> x > e.last)
  {
    var e := view[t].value;
    FindSectionSpec(e, s, e.last + 1);
    var found := FindSection(e, s, e.last + 1);
    hide FindSection;
    if found.Some? {
      StoredAt(view, t, found.value);
      PositionParts(t, found.value);
    }
  }

  lemma PositionParts(t: nat, s: nat)
    requires s < 256
    ensures (t * 256 + s) / 256 == t && (t * 256 + s) % 256 == s
  {
  }

  /** When every visible entry has something to send, any attempt sends if there is anything at all. */
  lemma SendsStored(view: View, c: Cursor)
    requires CursorOk(c) && NonEmpty(view)
    ensures Send(view, c).sent.Some? <==> exists k :: Stored(view, k)
    ensures var a := Send(view, c);
            a.sent.Some? ==> Stored(view, a.sent.value) && a.cursor == AfterKey(view, a.sent.value)
  {
    hide Send, Stored, AfterKey;
    SentIsStored(view, c);
  }

  /** What is sent first by up to n attempts. */
  function FirstSent(view: View, c: Cursor, n: nat): Option<nat>
    requires CursorOk(c)
    decreases n
  {
    if n == 0 then None
    else
      var a := Send(view, c);
      NextCursorOk(view, c);
      if a.sent.Some? then a.sent else FirstSent(view, a.cursor, n - 1)
  }

  /** Each attempt that sends nothing brings the cursor nearer to a table that has something. */
  lemma {:induction false} SendsWithin(view: View, c: Cursor, k: nat, n: nat)
    requires CursorOk(c) && Stored(view, k) && Distance(Slot(c.tableId), k / 256, TABLES) < n
    ensures FirstSent(view, c, n).Some?
    decreases n
  {
    hide Send, Stored, FindTable, Distance;
    SentIsStored(view, c);
    NearerAfter(view, Slot(c.tableId), k);
    if Send(view, c).sent.None? {
      SendsWithin(view, Send(view, c).cursor, k, n - 1);
    }
  }

  /** The first table from t on is not behind the one of position k, and nearer when it has nothing to send. */
  lemma NearerAfter(view: View, t: nat, k: nat)
    requires t < TABLES && Stored(view, k)
    ensures k / 256 < TABLES && Distance(t, k / 256, TABLES) >= 0
    ensures match FindTable(view, t, TABLES)
            case None => false
            case Some(u) =>
              (forall s :: s in view[u].value.stored ==> s > view[u].value.last) ==>
              && IsEitTable(NextTableId(TableOf(u)))
              && Distance(Slot(NextTableId(TableOf(u))), k / 256, TABLES) < Distance(t, k / 256, TABLES)
  {
    StoredParts(view, k);
    FindTableSpec(view, t, TABLES);
    match FindTable(view, t, TABLES)
    case None =>
    case Some(u) =>
      hide FindTable;
      NextTableIsNextSlot(TableOf(u));
  }

  /** As many attempts as there are tables send something, if and only if something is stored that can be sent. */
  lemma {:induction false} SendsSoon(view: View, c: Cursor, n: nat)
    requires CursorOk(c)
    ensures var sent := FirstSent(view, c, n);
            && (sent.Some? ==> Stored(view, sent.value))
            && (n >= TABLES ==> (sent.Some? <==> exists k :: Stored(view, k)))
    decreases n
  {
    hide Send, Stored;
    if n > 0 {
      SentIsStored(view, c);
      if Send(view, c).sent.None? {
        SendsSoon(view, Send(view, c).cursor, n - 1);
      }
    }
    forall k: nat | Stored(view, k) ensures n >= TABLES ==> FirstSent(view, c, n).Some? {
      StoredParts(view, k);
      if n >= TABLES {
        SendsWithin(view, c, k, n);
      }
    }
  }

  /** Positions compare as (table, section) pairs. */
  lemma PositionOrder(t: nat, s: nat, u: nat, r: nat)
    requires s < 256 && r < 256
    ensures t < u ==> t * 256 + s < u * 256 + r
    ensures t * 256 + s <= u * 256 + r <==> t < u || (t == u && s <= r)
  {
  }

  lemma WithinIsNext(view: View, t: nat, s: nat, found: nat)
    requires AllLast(view) || OneTable(view)
    requires t < TABLES && view[t].Some? && s < view[t].value.last
    requires found <= view[t].value.last && found in view[t].value.stored
    requires forall j :: 0 <= j <= view[t].value.last && j in view[t].value.stored ==>
               Distance(s + 1, found, view[t].value.last + 1) <= Distance(s + 1, j, view[t].value.last + 1)
    ensures IsNext(view, t * 256 + s + 1, t * 256 + found)
  {
    var k := t * 256 + s + 1;
    StoredAt(view, t, found);
    if AllLast(view) {
      assert found >= s + 1;
    }
    forall j: nat | Stored(view, j) ensures Distance(k, t * 256 + found, POSITIONS) <= Distance(k, j, POSITIONS) {
      StoredParts(view, j);
      PositionOrder(t, found, j / 256, j % 256);
      PositionOrder(t, s + 1, j / 256, j % 256);
      PositionOrder(j / 256, j % 256, t, found);
    }
  }

  /** After a send the next one takes the next stored position: within the table ... */
  lemma NextWithin(view: View, t: nat, s: nat)
    requires NonEmpty(view) && (AllLast(view) || OneTable(view))
    requires t < TABLES && view[t].Some? && s < view[t].value.last
    ensures var a := Send(view, Cursor(TableOf(t), s + 1));
            a.sent.Some? && IsNext(view, t * 256 + s + 1, a.sent.value)
  {
    FoundHere(view, t, s + 1);
    SendHere(view, t, s + 1);
    hide FindSection, Send, IsNext, NonEmpty, AllLast, OneTable;
    WithinIsNext(view, t, s, FindSection(view[t].value, s + 1, view[t].value.last + 1).value);
  }

  lemma FoundHere(view: View, t: nat, s: nat)
    requires NonEmpty(view) && t < TABLES && view[t].Some? && s <= view[t].value.last
    ensures var e, found := view[t].value, FindSection(view[t].value, s, view[t].value.last + 1);
      && found.Some? && found.value <= e.last && found.value in e.stored
      && forall j :: 0 <= j <= e.last && j in e.stored ==>
           Distance(s, found.value, e.last + 1) <= Distance(s, j, e.last + 1)
  {
    var e := view[t].value;
    FindSectionSpec(e, s, e.last + 1);
    hide FindSection;
    var first :| first in e.stored && first <= e.last;
  }

  /** A cursor at a visible table stays there if it finds something. */
  lemma SendHere(view: View, t: nat, s: nat)
    requires t < TABLES && view[t].Some? && s <= view[t].value.last
    ensures s % (view[t].value.last + 1) == s
    ensures var found := FindSection(view[t].value, s, view[t].value.last + 1);
      found.Some? ==> Send(view, Cursor(TableOf(t), s)).sent == Some(t * 256 + found.value)
  {
    SmallModulo(s, view[t].value.last + 1);
    assert FindTable(view, t, TABLES) == Some(t);
    hide FindTable, FindSection, After;
  }

  /** ... or from the start of the next table that has an entry. */
  lemma NextAcross(view: View, t: nat)
    requires NonEmpty(view) && t < TABLES && exists k :: Stored(view, k)
    ensures var a := Send(view, Cursor(TableOf(t), 0));
            a.sent.Some? && IsNext(view, t * 256, a.sent.value)
  {
    var c := Cursor(TableOf(t), 0);
    SendsStored(view, c);
    FindTableSpec(view, t, TABLES);
    var u := FindTable(view, t, TABLES).value;
    var e := view[u].value;
    FindSectionSpec(e, 0, e.last + 1);
    AcrossIsNext(view, t, u, FindSection(e, 0, e.last + 1).value);
  }

  lemma AcrossIsNext(view: View, t: nat, u: nat, found: nat)
    requires t < TABLES && u < TABLES && view[u].Some? && found <= view[u].value.last
    requires found in view[u].value.stored
    requires forall j :: 0 <= j < TABLES && view[j].Some? ==> Distance(t, u, TABLES) <= Distance(t, j, TABLES)
    requires forall j :: 0 <= j <= view[u].value.last && j in view[u].value.stored ==> found <= j
    ensures IsNext(view, t * 256, u * 256 + found)
  {
    StoredAt(view, u, found);
    forall j: nat | Stored(view, j)
      ensures Distance(t * 256, u * 256 + found, POSITIONS) <= Distance(t * 256, j, POSITIONS)
    {
      StoredParts(view, j);
      PositionOrder(u, found, j / 256, j % 256);
      PositionOrder(t, 0, j / 256, j % 256);
      PositionOrder(t, 0, u, found);
    }
  }

  /** No stored position lies between the last section of a table and the start of the next table. */
  lemma GapAfterTable(view: View, t: nat, r: nat)
    requires t < TABLES && view[t].Some?
    requires IsNext(view, NextSlot(t) * 256, r)
    ensures IsNext(view, (t * 256 + view[t].value.last + 1) % POSITIONS, r)
  {
    NoModulo(t * 256 + view[t].value.last + 1, POSITIONS);
    NoneInGap(view, t, r, Wrapped(t * 256 + view[t].value.last + 1, POSITIONS));
  }

  lemma NoneInGap(view: View, t: nat, r: nat, b: nat)
    requires t < TABLES && view[t].Some? && b == Wrapped(t * 256 + view[t].value.last + 1, POSITIONS)
    requires IsNext(view, NextSlot(t) * 256, r)
    ensures IsNext(view, b, r)
  {
    hide Stored;
    StoredParts(view, r);
    forall j: nat | Stored(view, j) ensures Distance(b, r, POSITIONS) <= Distance(b, j, POSITIONS) {
      StoredParts(view, j);
    }
  }

  lemma SendAfter(view: View, k: nat)
    requires Stored(view, k) && NonEmpty(view) && (AllLast(view) || OneTable(view))
    ensures var a := Send(view, AfterKey(view, k));
            a.sent.Some? && IsNext(view, (k + 1) % POSITIONS, a.sent.value)
  {
    hide Send, IsNext, After, NonEmpty, AllLast, OneTable, NextSlot;
    var t, s := k / 256, k % 256;
    StoredParts(view, k);
    AfterIs(view, t, s);
    StoredWithin(view, k);
    if s == view[t].value.last {
      AfterLast(view, t);
    } else {
      NextWithin(view, t, s);
    }
  }

  lemma AfterLast(view: View, t: nat)
    requires NonEmpty(view) && t < TABLES && view[t].Some? && exists k :: Stored(view, k)
    ensures var a := Send(view, Cursor(TableOf(NextSlot(t)), 0));
            a.sent.Some? && IsNext(view, (t * 256 + view[t].value.last + 1) % POSITIONS, a.sent.value)
  {
    hide Send, IsNext, Stored, NonEmpty;
    NextAcross(view, NextSlot(t));
    GapAfterTable(view, t, Send(view, Cursor(TableOf(NextSlot(t)), 0)).sent.value);
  }

  lemma StoredWithin(view: View, k: nat)
    requires Stored(view, k)
    ensures k < POSITIONS && AfterKey(view, k) == After(view, k / 256, k % 256)
    ensures k % 256 < view[k / 256].value.last ==> (k + 1) % POSITIONS == k / 256 * 256 + k % 256 + 1
    ensures k % 256 == view[k / 256].value.last ==>
      (k + 1) % POSITIONS == (k / 256 * 256 + view[k / 256].value.last + 1) % POSITIONS
  {
  }

  lemma AfterIs(view: View, t: nat, s: nat)
    requires t < TABLES && view[t].Some? && s <= view[t].value.last
    ensures After(view, t, s)
         == if s == view[t].value.last then Cursor(TableOf(NextSlot(t)), 0) else Cursor(TableOf(t), s + 1)
  {
    NextTableIsNextSlot(TableOf(t));
  }

  // ---------- the cycle of stored positions ----------

  /** The stored positions from k on, ascending. */
  ghost function Keys(view: View, k: nat): (ks: seq<nat>)
    requires k <= POSITIONS
    ensures forall i :: 0 <= i < |ks| ==> k <= ks[i] < POSITIONS && Stored(view, ks[i])
    ensures forall i, j :: 0 <= i < j < |ks| ==> ks[i] < ks[j]
    decreases POSITIONS - k
  {
    if k == POSITIONS then [] else
      var more := Keys(view, k + 1);
      if Stored(view, k) then [k] + more else more
  }

  lemma {:induction false} KeysComplete(view: View, k: nat, j: nat)
    requires k <= j && Stored(view, j)
    ensures j in Keys(view, k)
    decreases j - k
  {
    if k < j {
      KeysComplete(view, k + 1, j);
    }
  }

  lemma NoModulo(a: nat, n: nat)
    requires a < 2 * n
    ensures a % n == Wrapped(a, n)
  {
    if a >= n {
      assert a == 1 * n + (a - n);
    }
  }

  /** a taken modulo n, for a below 2n. */
  function Wrapped(a: nat, n: nat): nat
  {
    if a < n then a else a - n
  }

  lemma ClosestInList(ks: seq<nat>, i: nat, j: nat)
    requires i < |ks| && j < |ks|
    requires forall u :: 0 <= u < |ks| ==> ks[u] < POSITIONS
    requires forall u, v :: 0 <= u < v < |ks| ==> ks[u] < ks[v]
    requires var n := Wrapped(i + 1, |ks|);
             var k := Wrapped(ks[i] + 1, POSITIONS);
             Distance(k, ks[j], POSITIONS) <= Distance(k, ks[n], POSITIONS)
    ensures j == Wrapped(i + 1, |ks|)
  {
    var n := Wrapped(i + 1, |ks|);
    if i < j { assert ks[i] < ks[j]; }
    if j < i { assert ks[j] < ks[i]; }
  }

  lemma NextInList(view: View, i: nat, r: nat)
    requires i < |Keys(view, 0)|
    requires IsNext(view, (Keys(view, 0)[i] + 1) % POSITIONS, r)
    ensures r == Keys(view, 0)[Wrapped(i + 1, |Keys(view, 0)|)]
  {
    hide Stored;
    var ks := Keys(view, 0);
    NoModulo(ks[i] + 1, POSITIONS);
    KeysComplete(view, 0, r);
    var j: nat :| j < |ks| && ks[j] == r;
    ClosestInList(ks, i, j);
  }

  /** What n consecutive attempts from cursor c send. */
  function Sends(view: View, c: Cursor, n: nat): (sent: seq<Option<nat>>)
    requires CursorOk(c)
    ensures |sent| == n
    decreases n
  {
    if n == 0 then []
    else
      NextCursorOk(view, c);
      [Send(view, c).sent] + Sends(view, Send(view, c).cursor, n - 1)
  }

  lemma NextCursorOk(view: View, c: Cursor)
    requires CursorOk(c)
    ensures CursorOk(Send(view, c).cursor)
  {
    var table := FindTable(view, Slot(c.tableId), TABLES);
    if table.Some? {
      NextTableIsNextSlot(TableOf(table.value));
    }
  }

  /** sent goes through ks in order from index i, back to the start after the end. */
  ghost predicate AroundFrom(ks: seq<nat>, i: nat, sent: seq<Option<nat>>)
  {
    i < |ks| && |sent| <= |ks| && forall m :: 0 <= m < |sent| ==> sent[m] == Some(ks[Wrapped(i + m, |ks|)])
  }

  lemma AroundStep(ks: seq<nat>, i: nat, sent: seq<Option<nat>>)
    requires i < |ks| && |sent| < |ks| && AroundFrom(ks, Wrapped(i + 1, |ks|), sent)
    ensures AroundFrom(ks, i, [Some(ks[i])] + sent)
  {
  }

  lemma SentFrom(view: View, c: Cursor, n: nat)
    requires CursorOk(c) && n > 0
    ensures CursorOk(Send(view, c).cursor)
    ensures Sends(view, c, n) == [Send(view, c).sent] + Sends(view, Send(view, c).cursor, n - 1)
  {
    hide Send;
    NextCursorOk(view, c);
  }

  /** From the cursor left by sending index i, the next attempt sends the next index. */
  lemma SendsNextIndex(view: View, i: nat)
    requires NonEmpty(view) && (AllLast(view) || OneTable(view)) && i < |Keys(view, 0)|
    ensures var ks := Keys(view, 0);
            var next := Wrapped(i + 1, |ks|);
            && Stored(view, ks[i]) && Stored(view, ks[next])
            && Send(view, AfterKey(view, ks[i])) == Attempt(Some(ks[next]), AfterKey(view, ks[next]))
  {
    hide Send, AfterKey, Keys, Stored;
    var ks := Keys(view, 0);
    var c := AfterKey(view, ks[i]);
    SendAfter(view, ks[i]);
    NextInList(view, i, Send(view, c).sent.value);
    SendsStored(view, c);
  }

  /** Once a position has been sent, the following sends go round the stored positions in order. */
  lemma {:induction false} SendsGoRound(view: View, i: nat, n: nat)
    requires NonEmpty(view) && (AllLast(view) || OneTable(view)) && i < |Keys(view, 0)| && n <= |Keys(view, 0)|
    ensures var ks := Keys(view, 0);
            Stored(view, ks[i]) &&
            AroundFrom(ks, Wrapped(i + 1, |ks|), Sends(view, AfterKey(view, ks[i]), n))
    decreases n
  {
    hide Send, Stored, AfterKey, Keys;
    var ks := Keys(view, 0);
    if n != 0 {
      SendsNextIndex(view, i);
      var next := Wrapped(i + 1, |ks|);
      SentFrom(view, AfterKey(view, ks[i]), n);
      SendsGoRound(view, next, n - 1);
      AroundStep(ks, next, Sends(view, AfterKey(view, ks[next]), n - 1));
    }
  }

  /**
   Round-robin fairness: from any cursor, as many sends as there are stored sections send each
   of them, once, in cyclic order.
   */
  lemma SendsEachOnce(view: View, c: Cursor) returns (i: nat)
    requires CursorOk(c) && NonEmpty(view) && (AllLast(view) || OneTable(view)) && Keys(view, 0) != []
    ensures AroundFrom(Keys(view, 0), i, Sends(view, c, |Keys(view, 0)|))
  {
    hide Send, Keys, AfterKey;
    var ks := Keys(view, 0);
    assert Stored(view, ks[0]);
    SendsStored(view, c);
    var a := Send(view, c);
    KeysComplete(view, 0, a.sent.value);
    i :| i < |ks| && ks[i] == a.sent.value;
    SentFrom(view, c, |ks|);
    SendsGoRound(view, i, |ks| - 1);
    AroundStep(ks, i, Sends(view, a.cursor, |ks| - 1));
  }

  lemma RotationCovers(ks: seq<nat>, i: nat, sent: seq<Option<nat>>, k: nat)
    requires i < |ks| == |sent| && AroundFrom(ks, i, sent) && k in ks
    ensures Some(k) in sent
  {
    var j: nat :| j < |ks| && ks[j] == k;
    var m := if j >= i then j - i else j - i + |ks|;
    assert sent[m] == Some(k);
  }

  // ---------- exactly when it is fair ----------

  /** Whatever the cursor, a full round reaches every stored section. */
  ghost predicate Fair(view: View)
  {
    forall c: Cursor, k: nat :: CursorOk(c) && Stored(view, k) ==> Some(k) in Sends(view, c, |Keys(view, 0)|)
  }

  /** A table whose last section is missing never lets go of the cursor. */
  lemma {:induction false} Captured(view: View, t: nat, s: nat, n: nat)
    requires t < TABLES && view[t].Some? && view[t].value.last !in view[t].value.stored
    requires exists r :: r in view[t].value.stored && r <= view[t].value.last
    ensures forall x :: x in Sends(view, Cursor(TableOf(t), s), n) ==> x.Some? && x.value / 256 == t
    decreases n
  {
    if n != 0 {
      var e, c := view[t].value, Cursor(TableOf(t), s);
      assert FindTable(view, t, TABLES) == Some(t);
      var s0 := s % (e.last + 1);
      var r :| r in e.stored && r <= e.last;
      FindSectionSpec(e, s0, e.last + 1);
      var found := FindSection(e, s0, e.last + 1);
      assert found.Some? && found.value < e.last;
      assert Send(view, c) == Attempt(Some(t * 256 + found.value), Cursor(TableOf(t), found.value + 1));
      assert (t * 256 + found.value) / 256 == t;
      Captured(view, t, found.value + 1, n - 1);
    }
  }

  /**
   The sender is fair exactly when every visible entry has its last section stored, or only one
   table is visible, or nothing is stored that could be sent.
   */
  lemma FairExactlyWhen(view: View)
    ensures Fair(view) <==> AllLast(view) || OneTable(view) || Keys(view, 0) == []
  {
    hide Send, Keys, Sends, Stored;
    if Keys(view, 0) == [] {
      NothingStoredIsFair(view);
    } else if AllLast(view) || OneTable(view) {
      FairViewsAreNonEmpty(view);
      AllServed(view);
    } else if NonEmpty(view) {
      var t :| 0 <= t < TABLES && view[t].Some? && view[t].value.last !in view[t].value.stored;
      var v, w :| 0 <= v < TABLES && 0 <= w < TABLES && view[v].Some? && view[w].Some? && v != w;
      NotFair(view, t, if v == t then w else v);
    } else {
      var t: nat :| t < TABLES && view[t].Some? && forall s :: s in view[t].value.stored ==> s > view[t].value.last;
      EmptyEntryNotFair(view, t);
    }
  }

  lemma NothingStoredIsFair(view: View)
    requires Keys(view, 0) == []
    ensures Fair(view)
  {
    forall k: nat ensures !Stored(view, k) {
      if Stored(view, k) {
        KeysComplete(view, 0, k);
      }
    }
  }

  lemma FairViewsAreNonEmpty(view: View)
    requires (AllLast(view) || OneTable(view)) && Keys(view, 0) != []
    ensures NonEmpty(view)
  {
    hide Keys;
    var k := Keys(view, 0)[0];
    assert Stored(view, k);
    StoredParts(view, k);
  }

  lemma AllServed(view: View)
    requires NonEmpty(view) && (AllLast(view) || OneTable(view)) && Keys(view, 0) != []
    ensures Fair(view)
  {
    hide Send, Keys, Sends, Stored;
    forall c: Cursor, k: nat | CursorOk(c) && Stored(view, k)
      ensures Some(k) in Sends(view, c, |Keys(view, 0)|)
    {
      KeysComplete(view, 0, k);
      var i := SendsEachOnce(view, c);
      RotationCovers(Keys(view, 0), i, Sends(view, c, |Keys(view, 0)|), k);
    }
  }

  /** An entry with nothing to send costs an attempt, and then a round is too short. */
  lemma EmptyEntryNotFair(view: View, t: nat)
    requires t < TABLES && view[t].Some? && forall s :: s in view[t].value.stored ==> s > view[t].value.last
    requires Keys(view, 0) != []
    ensures !Fair(view)
  {
    hide Keys, Sends, Stored;
    var c, ks := Cursor(TableOf(t), 0), Keys(view, 0);
    assert FindTable(view, t, TABLES) == Some(t);
    assert Send(view, c).sent == None;
    hide Send;
    SentFrom(view, c, |ks|);
    if Fair(view) {
      var rest := Sends(view, Send(view, c).cursor, |ks| - 1);
      forall k | k in ks ensures Some(k) in rest {
        assert Some(k) in Sends(view, c, |ks|);
      }
      NoMoreKeys(ks, rest);
    }
  }

  lemma {:induction false} NoMoreKeys(ks: seq<nat>, sent: seq<Option<nat>>)
    requires forall i, j :: 0 <= i < j < |ks| ==> ks[i] < ks[j]
    requires forall k :: k in ks ==> Some(k) in sent
    ensures |ks| <= |sent|
    decreases |ks|
  {
    if ks != [] {
      var m :| 0 <= m < |sent| && sent[m] == Some(ks[0]);
      var others := sent[..m] + sent[m + 1..];
      forall k | k in ks[1..] ensures Some(k) in others {
        var x :| 0 <= x < |sent| && sent[x] == Some(k);
        assert x != m && others[if x < m then x else x - 1] == Some(k);
      }
      NoMoreKeys(ks[1..], others);
    }
  }

  lemma NotFair(view: View, t: nat, u: nat)
    requires NonEmpty(view) && t < TABLES && u < TABLES && t != u
    requires view[t].Some? && view[u].Some? && view[t].value.last !in view[t].value.stored
    ensures !Fair(view)
  {
    hide Send, Keys, Sends;
    var s :| s in view[u].value.stored && s <= view[u].value.last;
    StoredAt(view, u, s);
    var c, n := Cursor(TableOf(t), 0), |Keys(view, 0)|;
    Captured(view, t, 0, n);
    assert (u * 256 + s) / 256 == u;
    assert CursorOk(c) && Some(u * 256 + s) !in Sends(view, c, n);
  }

  // ---------- the program's search loops ----------

  lemma FindTableStep(view: View, t: nat, n: nat)
    requires t < TABLES && n > 0
    ensures FindTable(view, t, n) == if view[t].Some? then Some(t) else FindTable(view, NextSlot(t), n - 1)
    ensures FindTable(view, NextSlot(t), 0) == None
  {
  }

  lemma SlotIs(tableId: byte)
    requires IsEitTable(tableId)
    ensures TableOf(Slot(tableId)) == tableId
  {
  }

  lemma SlotsAreIds(a: byte, b: byte)
    requires IsEitTable(a) && IsEitTable(b)
    ensures Slot(a) == Slot(b) ==> a == b
  {
  }

  lemma RoundStart(t: nat)
    requires t < TABLES
    ensures Wrapped(t + 0, TABLES) == t
  {
  }

  /** The next slot in the round, which is the first again only after all the others. */
  lemma RoundStep(t: nat, seen: nat)
    requires t < TABLES && seen < TABLES
    ensures NextSlot(Wrapped(t + seen, TABLES)) == if seen + 1 == TABLES then t else Wrapped(t + seen + 1, TABLES)
    ensures NextSlot(Wrapped(t + seen, TABLES)) == t <==> seen + 1 == TABLES
  {
  }

  lemma SendIs(view: View, c: Cursor)
    requires CursorOk(c)
    ensures var table, a := FindTable(view, Slot(c.tableId), TABLES), Send(view, c);
      && (table.None? ==> a == Attempt(None, c))
      && (table.Some? ==>
            var t, e := table.value, view[table.value].value;
            var section := FindSection(e, c.section % (e.last + 1), e.last + 1);
            && (section.None? ==> a == Attempt(None, Cursor(NextTableId(TableOf(t)), c.section % (e.last + 1))))
            && (section.Some? ==>
                  var next := NextSection(e, section.value);
                  a == Attempt(Some(t * 256 + section.value),
                               Cursor(if next == 0 then NextTableId(TableOf(t)) else TableOf(t), next))))
  {
  }

  class Channel {
    var eitTableIdToSend: byte
    var eitSectionToSend: nat

    ghost function Abs(): Cursor
      reads this
    {
      Cursor(eitTableIdToSend, eitSectionToSend)
    }

    /** The cursor as the sender first reads it: an impossible table id becomes 0x4E. */
    ghost function Start(): (c: Cursor)
      reads this
      ensures CursorOk(c)
    {
      Cursor(if IsEitTable(eitTableIdToSend) then eitTableIdToSend else 0x4E, eitSectionToSend)
    }

    /** Go to the first table, from the current one on, that has an entry. */
    method FindTableToSend(view: View) returns (found: bool)
      requires CursorOk(Abs())
      modifies this`eitTableIdToSend
      ensures CursorOk(Abs())
      ensures var table := FindTable(view, Slot(old(eitTableIdToSend)), TABLES);
              && found == table.Some?
              && (found ==> eitTableIdToSend == TableOf(table.value))
              && (!found ==> eitTableIdToSend == old(eitTableIdToSend))
    {
      var sectionStart := eitTableIdToSend;
      ghost var seen := 0;
      found := false;
      hide FindTable, Slot, TableOf, NextTableId, NextSlot, Wrapped;
      RoundStart(Slot(sectionStart));
      while true
        invariant CursorOk(Abs()) && CursorOk(Cursor(sectionStart, 0)) && seen < TABLES && !found
        invariant Slot(eitTableIdToSend) == Wrapped(Slot(sectionStart) + seen, TABLES)
        invariant FindTable(view, Slot(sectionStart), TABLES)
               == FindTable(view, Slot(eitTableIdToSend), TABLES - seen)
        decreases TABLES - seen
      {
        FindTableStep(view, Slot(eitTableIdToSend), TABLES - seen);
        SlotIs(eitTableIdToSend);
        if view[Slot(eitTableIdToSend)].Some? {
          found := true;
          return;
        }
        NextTableIsNextSlot(eitTableIdToSend);
        RoundStep(Slot(sectionStart), seen);
        eitTableIdToSend := NextTableId(eitTableIdToSend);
        seen := seen + 1;
        if eitTableIdToSend == sectionStart {
          return;
        }
        SlotsAreIds(eitTableIdToSend, sectionStart);
      }
    }

    /** Go to the first section, from the current one on, that the entry has stored. */
    method FindSectionToSend(e: Entry) returns (found: bool)
      modifies this`eitSectionToSend
      ensures var section := FindSection(e, old(eitSectionToSend) % (e.last + 1), e.last + 1);
              && found == section.Some?
              && (found ==> eitSectionToSend == section.value)
              && (!found ==> eitSectionToSend == old(eitSectionToSend) % (e.last + 1))
    {
      eitSectionToSend := eitSectionToSend % (e.last + 1);
      ghost var s0 := eitSectionToSend;
      var i := 0;
      while i <= e.last && eitSectionToSend !in e.stored
        invariant 0 <= i <= e.last + 1 && eitSectionToSend <= e.last
        invariant eitSectionToSend == if s0 + i <= e.last then s0 + i else s0 + i - (e.last + 1)
        invariant FindSection(e, s0, e.last + 1) == FindSection(e, eitSectionToSend, e.last + 1 - i)
      {
        NextSectionIsModulo(e, eitSectionToSend);
        eitSectionToSend := (eitSectionToSend + 1) % (e.last + 1);
        i := i + 1;
      }
      if i == e.last + 1 {
        FindSectionSpec(e, s0, e.last + 1);
      }
      found := eitSectionToSend in e.stored;
    }

    /** One send: which position goes out, if any, and where the cursor is left. */
    method NextToSend(view: View) returns (sent: Option<nat>)
      modifies this
      ensures var a := Send(view, old(Start()));
              sent == a.sent && Abs() == a.cursor
    {
      if !IsEitTable(eitTableIdToSend) {
        eitTableIdToSend := 0x4E;
      }
      SendIs(view, Abs());
      hide FindTable, FindSection, Send, Slot, NextTableId, NextSection, TableOf;
      var found := FindTableToSend(view);
      if !found {
        return None;
      }
      var t := Slot(eitTableIdToSend);
      var e := view[t].value;
      assert eitTableIdToSend == TableOf(t);
      found := FindSectionToSend(e);
      if !found {
        eitTableIdToSend := NextTableId(eitTableIdToSend);
        return None;
      }
      sent := Some(t * 256 + eitSectionToSend);
      NextSectionIsModulo(e, eitSectionToSend);
      eitSectionToSend := (eitSectionToSend + 1) % (e.last + 1);
      if eitSectionToSend == 0 {
        eitTableIdToSend := NextTableId(eitTableIdToSend);
      }
    }
  }
}

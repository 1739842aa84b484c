/** What is known of the channels when a version of the Program Association Table is complete. */
module PatVersions {
  import opened Bytes
  import opened Sections
  import opened PatRewrite
  import opened PatTracking

  type Table = data: seq<byte> | |data| == MAX_TS_SIZE witness Repeat(0, MAX_TS_SIZE)

  /** A section of the table arrives, or all channels are updated. */
  datatype Event = Section(data: Table) | Update(verdicts: seq<Verdict>)

  function Step(st: State, e: Event): State
  {
    match e
    case Section(data) => ReadPat(st, data)
    case Update(verdicts) => st.(channels := Updated(st.channels, verdicts))
  }

  function Run(st: State, events: seq<Event>): State
  {
    if events == [] then st else Step(Run(st, events[..|events| - 1]), events[|events| - 1])
  }

  /** From the first section of version v on: all are of that version, which is not complete before the last. */
  predicate OneVersion(st: State, events: seq<Event>, v: int)
  {
    events == [] ||
    var past, e := events[..|events| - 1], events[|events| - 1];
    && OneVersion(st, past, v)
    && (if past == [] then e.Section? else !Run(st, past).allSeen)
    && (e.Section? ==> Version(e.data) == v)
  }

  predicate Skipped(st: State, data: Table)
  {
    Version(data) == st.version && SectionNumber(data) in st.seen
  }

  /** The section is read: it is applicable and no section of its number was seen before. */
  predicate Reads(st: State, e: Event)
  {
    e.Section? && !Skipped(st, e.data) && Applicable(e.data)
  }

  /** The program numbers listed by the sections that were read. */
  function Listed(st: State, events: seq<Event>): set<int>
  {
    if events == [] then {}
    else
      var past, e := events[..|events| - 1], events[|events| - 1];
      Listed(st, past) + if Reads(Run(st, past), e) then Ids(Listing(e.data)) else {}
  }

  /** What the event decides of channel i. */
  function Ruling(st: State, e: Event, i: nat): Verdict
  {
    if e.Update? && i < |st.channels| then Effective(st.channels[i], VerdictOn(e.verdicts, i)) else UNDECIDED
  }

  /** The last decision on each of the channels there were, if there was one. */
  function Rulings(st: State, events: seq<Event>): (r: seq<Verdict>)
    ensures |r| == |st.channels|
  {
    if events == [] then Repeat(UNDECIDED, |st.channels|)
    else
      var past, e := events[..|events| - 1], events[|events| - 1];
      Overruled(Rulings(st, past), Run(st, past), e)
  }

  function Overruled(before: seq<Verdict>, st: State, e: Event): (r: seq<Verdict>)
    ensures |r| == |before|
  {
    seq(|before|, i requires 0 <= i < |before| => if Ruling(st, e, i) == UNDECIDED then before[i] else Ruling(st, e, i))
  }

  /** Autodetected, and in use when the version began. */
  predicate WasThere(c: Channel)
  {
    c.detected && (c.ready == READY || c.ready == READY_EXISTING)
  }

  /** What becomes of a channel that was there, once the version is complete. */
  function Fate(verdict: Verdict, listed: bool): Ready
  {
    match verdict
    case WANTED => READY
    case UNWANTED => NO_STREAMING
    case UNDECIDED => if listed then READY else REMOVED
  }

  /** Where a channel that was there stands. */
  predicate Stands(c: Channel, verdict: Verdict, complete: bool, listed: bool)
  {
    if complete then c.detected && c.ready == Fate(verdict, listed) else Awaits(c, verdict, listed)
  }

  predicate Sound(st: State)
  {
    OwnIds(st.channels) && |st.channels| <= MAX_CHANNELS
  }

  /** What is known after a version's first section. */
  ghost predicate Known(st0: State, st: State, v: int, rulings: seq<Verdict>, listed: set<int>)
  {
    && Sound(st) && Grows(st0.channels, st.channels) && st.version == v && |rulings| == |st0.channels|
    && (forall id :: id in listed ==> Has(st.channels, id) || |st.channels| >= MAX_CHANNELS - 1)
    && forall i :: 0 <= i < |st0.channels| && WasThere(st0.channels[i]) ==>
         Stands(st.channels[i], rulings[i], st.allSeen, st0.channels[i].serviceId in listed)
  }

  /** What is known when a section is about to be read. */
  ghost predicate Ready(st0: State, st: State, v: int, rulings: seq<Verdict>, listed: set<int>)
  {
    && Sound(st) && Grows(st0.channels, st.channels) && st.version == v && |rulings| == |st0.channels| && !st.allSeen
    && (forall id :: id in listed ==> Has(st.channels, id) || |st.channels| >= MAX_CHANNELS - 1)
    && forall i :: 0 <= i < |st0.channels| && WasThere(st0.channels[i]) ==>
         Awaits(st.channels[i], rulings[i], st0.channels[i].serviceId in listed)
  }

  lemma GrowsTransitive(a: seq<Channel>, b: seq<Channel>, c: seq<Channel>)
    requires Grows(a, b) && Grows(b, c)
    ensures Grows(a, c)
  {
  }

  lemma UpdateKnown(st0: State, st: State, e: Event, v: int, rulings: seq<Verdict>, listed: set<int>)
    requires Known(st0, st, v, rulings, listed) && e.Update? && !st.allSeen
    ensures Known(st0, Step(st, e), v, Overruled(rulings, st, e), listed)
  {
    var t := Step(st, e);
    assert Grows(st.channels, t.channels);
    GrowsTransitive(st0.channels, st.channels, t.channels);
    forall id | Has(st.channels, id) ensures Has(t.channels, id) {
      HasGrows(st.channels, t.channels, id);
    }
  }

  /** The first section of a version marks the channels. */
  lemma Begun(st0: State, data: Table, v: int)
    requires Sound(st0) && Version(data) == v != st0.version
    ensures Ready(st0, NewVersion(st0, data), v, Rulings(st0, []), {})
  {
    assert Grows(st0.channels, Marked(st0.channels));
  }

  /** A later one does not. */
  lemma Continued(st0: State, st: State, data: Table, v: int, rulings: seq<Verdict>, listed: set<int>)
    requires Known(st0, st, v, rulings, listed) && !st.allSeen && Version(data) == v
    ensures NewVersion(st, data) == st && Ready(st0, st, v, rulings, listed)
  {
  }

  lemma SectionKnown(st0: State, st: State, data: Table, v: int, rulings: seq<Verdict>, listed: set<int>)
    requires Ready(st0, NewVersion(st, data), v, rulings, listed)
    requires Applicable(data) && !Skipped(st, data)
    ensures Known(st0, ReadPat(st, data), v, rulings, listed + Ids(Listing(data)))
  {
    hide Ids, Listing, UpdateAll, NewVersion, Number;
    var ps := Listing(data);
    var t := NewVersion(st, data);
    var noted := t.(seen := t.seen + {SectionNumber(data)});
    var read := ReadProgramsOf(noted, data);
    UpdateAllKeeps(t.channels, ps);
    GrowsTransitive(st0.channels, t.channels, read.channels);
    forall i | 0 <= i < |st0.channels| && WasThere(st0.channels[i])
      ensures Awaits(read.channels[i], rulings[i], st0.channels[i].serviceId in listed + Ids(ps))
    {
      UpdateAllAwaits(t.channels, ps, i, rulings[i], st0.channels[i].serviceId in listed);
    }
    forall id | id in listed + Ids(ps) ensures Has(read.channels, id) || |read.channels| >= MAX_CHANNELS - 1 {
      if id in listed && Has(t.channels, id) {
        HasGrows(t.channels, read.channels, id);
      } else if id in Ids(ps) {
        IdListed(ps, id);
      }
    }
    FinishKnown(st0, read, v, rulings, listed + Ids(ps), data[7]);
  }

  /** A section that is not yet applicable begins its version, but lists nothing. */
  lemma NotedKnown(st0: State, st: State, data: Table, v: int, rulings: seq<Verdict>, listed: set<int>)
    requires Ready(st0, NewVersion(st, data), v, rulings, listed)
    requires !Applicable(data) && !Skipped(st, data)
    ensures Known(st0, ReadPat(st, data), v, rulings, listed)
  {
    hide NewVersion;
  }

  lemma IdListed(ps: seq<Program>, id: int)
    requires id in Ids(ps)
    ensures exists k :: 0 <= k < |ps| && Number(ps[k]) != 0 && Number(ps[k]) == id
  {
  }

  lemma FinishKnown(st0: State, st: State, v: int, rulings: seq<Verdict>, listed: set<int>, last: nat)
    requires Ready(st0, st, v, rulings, listed)
    ensures Known(st0, Finish(st, last), v, rulings, listed)
  {
    var t := Finish(st, last);
    assert Grows(st.channels, t.channels);
    GrowsTransitive(st0.channels, st.channels, t.channels);
    forall id | Has(st.channels, id) ensures Has(t.channels, id) {
      HasGrows(st.channels, t.channels, id);
    }
  }

  lemma NoRuling(rulings: seq<Verdict>, st: State, e: Event)
    requires e.Section?
    ensures Overruled(rulings, st, e) == rulings
  {
  }

  /** Over the sections of one version, in any order and with repeats, and any updates of the channels in between. */
  lemma {:induction false} VersionKnown(st0: State, events: seq<Event>, v: int)
    requires Sound(st0) && v != st0.version && OneVersion(st0, events, v) && events != []
    ensures Known(st0, Run(st0, events), v, Rulings(st0, events), Listed(st0, events))
    decreases |events|
  {
    hide Known, Ready, ReadPat, Ids, Listing, Overruled, Updated;
    var past, e := events[..|events| - 1], events[|events| - 1];
    var st, rulings, listed := Run(st0, past), Rulings(st0, past), Listed(st0, past);
    assert listed + {} == listed;
    if past != [] {
      VersionKnown(st0, past, v);
    }
    match e
    case Update(_) =>
      UpdateKnown(st0, st, e, v, rulings, listed);
    case Section(data) =>
      NoRuling(rulings, st, e);
      if past == [] {
        Begun(st0, data, v);
      } else if !Skipped(st, data) {
        Continued(st0, st, data, v, rulings, listed);
      }
      if Skipped(st, data) {
        SkippedStays(st, data);
      } else if Applicable(data) {
        SectionKnown(st0, st, data, v, rulings, listed);
      } else {
        NotedKnown(st0, st, data, v, rulings, listed);
      }
  }

  lemma SkippedStays(st: State, data: Table)
    requires Skipped(st, data)
    ensures ReadPat(st, data) == st
  {
  }

  // ---------- which sections are read ----------

  ghost predicate SeenSome(events: seq<Event>, n: nat)
  {
    exists k :: 0 <= k < |events| && events[k].Section? && SectionNumber(events[k].data) == n
  }

  /** Event k is a section, the first of its number. */
  ghost predicate First(events: seq<Event>, k: nat)
  {
    k < |events| && events[k].Section? && !SeenSome(events[..k], SectionNumber(events[k].data))
  }

  /** A section that is applicable when it first comes lists the program. */
  ghost predicate ListedFirst(events: seq<Event>, id: int)
  {
    exists k: nat :: First(events, k) && Applicable(events[k].data) && id in Ids(Listing(events[k].data))
  }

  /** Some applicable section lists the program: what the table says in the end. */
  ghost predicate ListedBySome(events: seq<Event>, id: int)
  {
    exists k: nat :: k < |events| && events[k].Section? && Applicable(events[k].data)
      && id in Ids(Listing(events[k].data))
  }

  lemma SeenSnoc(events: seq<Event>, n: nat)
    requires events != []
    ensures SeenSome(events, n) <==>
      var e := events[|events| - 1];
      SeenSome(events[..|events| - 1], n) || (e.Section? && SectionNumber(e.data) == n)
  {
    var past, e := events[..|events| - 1], events[|events| - 1];
    if SeenSome(past, n) {
      var k :| 0 <= k < |past| && past[k].Section? && SectionNumber(past[k].data) == n;
      assert events[k] == past[k];
    }
    if SeenSome(events, n) {
      var k :| 0 <= k < |events| && events[k].Section? && SectionNumber(events[k].data) == n;
      assert k < |past| ==> past[k] == events[k];
    }
  }

  /** The section numbers noted are those of the version's sections so far. */
  lemma {:induction false} SeenAreRead(st0: State, events: seq<Event>, v: int, n: nat)
    requires v != st0.version && OneVersion(st0, events, v)
    ensures events != [] ==> Run(st0, events).version == v && (n in Run(st0, events).seen <==> SeenSome(events, n))
    decreases |events|
  {
    hide Ids, Listing, UpdateAll, Updated;
    if events != [] {
      SeenAreRead(st0, events[..|events| - 1], v, n);
      SeenSnoc(events, n);
    }
  }

  lemma LastIsFirst(st0: State, events: seq<Event>, v: int)
    requires events != [] && v != st0.version && OneVersion(st0, events, v)
    ensures var k := |events| - 1;
      Reads(Run(st0, events[..k]), events[k]) <==> First(events, k) && Applicable(events[k].data)
  {
    var k := |events| - 1;
    if events[k].Section? {
      SeenAreRead(st0, events[..k], v, SectionNumber(events[k].data));
    }
  }

  lemma ListedFirstSnoc(events: seq<Event>, id: int)
    requires events != []
    ensures ListedFirst(events, id) <==>
      var k := |events| - 1;
      ListedFirst(events[..k], id)
        || (First(events, k) && Applicable(events[k].data) && id in Ids(Listing(events[k].data)))
  {
    hide Ids, Listing, Applicable;
    var past := events[..|events| - 1];
    forall k: nat | k < |past| ensures First(events, k) <==> First(past, k) {
      assert events[..k] == past[..k] && events[k] == past[k];
    }
    if ListedFirst(past, id) {
      var k: nat :| First(past, k) && Applicable(past[k].data) && id in Ids(Listing(past[k].data));
      assert First(events, k) && events[k] == past[k];
    }
    if ListedFirst(events, id) {
      var k: nat :| First(events, k) && Applicable(events[k].data) && id in Ids(Listing(events[k].data));
      assert k < |past| ==> First(past, k) && past[k] == events[k];
    }
  }

  /** Read are exactly the sections that are applicable when they first come. */
  lemma {:induction false} ListedIsFirst(st0: State, events: seq<Event>, v: int, id: int)
    requires v != st0.version && OneVersion(st0, events, v)
    ensures id in Listed(st0, events) <==> ListedFirst(events, id)
    decreases |events|
  {
    hide Ids, Listing, Run, First, Applicable, ListedFirst, Reads;
    if events == [] {
      NothingListed(id);
    } else {
      ListedIsFirst(st0, events[..|events| - 1], v, id);
      LastIsFirst(st0, events, v);
      ListedFirstSnoc(events, id);
    }
  }

  lemma NothingListed(id: int)
    ensures !ListedFirst([], id)
  {
  }

  // ---------- a completed version ----------

  /**
   When a version is complete, whatever its sections are: a channel that was there is where the
   last decision since the version began has put it, and if there was none it is in use if and only if
   a section that was applicable when it first came lists it, else removed; every program so listed
   has a channel while there is room; ids stay distinct and no channel changes its id.
   */
  lemma VersionCompleted(st0: State, events: seq<Event>, v: int)
    requires Sound(st0) && v != st0.version && OneVersion(st0, events, v)
    requires events != [] && Run(st0, events).allSeen
    ensures var now := Run(st0, events).channels;
      && OwnIds(now) && Grows(st0.channels, now)
      && (forall i :: 0 <= i < |st0.channels| && WasThere(st0.channels[i]) ==>
            now[i].ready == Fate(Rulings(st0, events)[i], ListedFirst(events, st0.channels[i].serviceId)))
      && (|now| < MAX_CHANNELS - 1 ==> forall id :: ListedFirst(events, id) ==> Has(now, id))
  {
    hide Ids, Listing, Run, ListedFirst, Listed, OneVersion, Rulings;
    VersionKnown(st0, events, v);
    forall id ensures id in Listed(st0, events) <==> ListedFirst(events, id) {
      ListedIsFirst(st0, events, v, id);
    }
  }

  /** The promise: every channel that was there is in use if some applicable section lists it, else removed. */
  ghost predicate PromiseKept(st0: State, events: seq<Event>)
  {
    var now := Run(st0, events).channels;
    |st0.channels| <= |now| &&
    forall i :: 0 <= i < |st0.channels| && WasThere(st0.channels[i]) ==>
      now[i].ready == if ListedBySome(events, st0.channels[i].serviceId) then READY else REMOVED
  }

  /** Event k is an applicable section that lists the program, but not the first of its number. */
  ghost predicate Hides(events: seq<Event>, k: nat, id: int)
  {
    k < |events| && events[k].Section? && Applicable(events[k].data) && id in Ids(Listing(events[k].data))
      && !First(events, k)
  }

  /** Listed only by sections that are not the first of their number. */
  ghost predicate Hidden(events: seq<Event>, id: int)
  {
    !ListedFirst(events, id) && exists k: nat :: Hides(events, k, id)
  }

  /** What some applicable section lists is listed when its number first comes, or hidden. */
  lemma SomeIsFirstOrHidden(events: seq<Event>, id: int)
    ensures ListedBySome(events, id) <==> ListedFirst(events, id) || Hidden(events, id)
  {
    hide Ids, Listing, Applicable;
    if ListedBySome(events, id) {
      var k: nat :| k < |events| && events[k].Section? && Applicable(events[k].data)
        && id in Ids(Listing(events[k].data));
      assert First(events, k) || Hides(events, k, id);
    }
    if ListedFirst(events, id) {
      var k: nat :| First(events, k) && Applicable(events[k].data) && id in Ids(Listing(events[k].data));
      assert k < |events|;
    }
  }

  /** Nothing keeps channel i from the state the promise gives it. */
  ghost predicate Undisturbed(st0: State, events: seq<Event>, i: nat)
    requires i < |st0.channels|
  {
    var id := st0.channels[i].serviceId;
    match Rulings(st0, events)[i]
    case UNDECIDED => !Hidden(events, id)
    case WANTED => ListedBySome(events, id)
    case UNWANTED => false
  }

  /**
   The promise is kept if and only if, of the channels that were there, none on which nothing was
   decided since the version began is hidden, those last decided to be wanted are listed, and none
   was last decided to be unwanted.
   */
  lemma PromiseExactlyWhen(st0: State, events: seq<Event>, v: int)
    requires Sound(st0) && v != st0.version && OneVersion(st0, events, v)
    requires events != [] && Run(st0, events).allSeen
    ensures PromiseKept(st0, events) <==>
      forall i :: 0 <= i < |st0.channels| && WasThere(st0.channels[i]) ==> Undisturbed(st0, events, i)
  {
    hide Run, ListedFirst, ListedBySome, Hidden, OneVersion, Rulings;
    VersionCompleted(st0, events, v);
    forall id ensures ListedBySome(events, id) <==> ListedFirst(events, id) || Hidden(events, id) {
      SomeIsFirstOrHidden(events, id);
    }
    forall id ensures !(ListedFirst(events, id) && Hidden(events, id)) {
      HiddenIsNotFirst(events, id);
    }
  }

  lemma {:induction false} NothingRuled(st0: State, events: seq<Event>, i: nat)
    requires i < |st0.channels| && forall k :: 0 <= k < |events| ==> events[k].Section?
    ensures Rulings(st0, events)[i] == UNDECIDED
    decreases |events|
  {
    if events != [] {
      hide Run;
      var past := events[..|events| - 1];
      forall k | 0 <= k < |past| ensures past[k].Section? {
        assert past[k] == events[k];
      }
      NothingRuled(st0, past, i);
      assert events[|events| - 1].Section?;
    }
  }

  /** If no update of the channels falls into the version, only hidden channels break the promise. */
  lemma PromiseWithoutUpdates(st0: State, events: seq<Event>, v: int)
    requires Sound(st0) && v != st0.version && OneVersion(st0, events, v)
    requires events != [] && Run(st0, events).allSeen && forall k :: 0 <= k < |events| ==> events[k].Section?
    ensures PromiseKept(st0, events) <==>
      forall i :: 0 <= i < |st0.channels| && WasThere(st0.channels[i]) ==> !Hidden(events, st0.channels[i].serviceId)
  {
    hide Run, Hidden, OneVersion, PromiseKept, Rulings;
    PromiseExactlyWhen(st0, events, v);
    forall i: nat | i < |st0.channels|
      ensures Undisturbed(st0, events, i) <==> !Hidden(events, st0.channels[i].serviceId)
    {
      NothingRuled(st0, events, i);
    }
  }

  /** Applicable sections with the same number list the same programs. */
  ghost predicate Consistent(events: seq<Event>)
  {
    forall j, k :: 0 <= j < |events| && 0 <= k < |events| && events[j].Section? && events[k].Section?
      && Applicable(events[j].data) && Applicable(events[k].data)
      && SectionNumber(events[j].data) == SectionNumber(events[k].data)
      ==> Ids(Listing(events[j].data)) == Ids(Listing(events[k].data))
  }

  lemma {:induction false} FirstOfNumber(events: seq<Event>, k: nat) returns (j: nat)
    requires k < |events| && events[k].Section?
    ensures j <= k && First(events, j) && SectionNumber(events[j].data) == SectionNumber(events[k].data)
    decreases k
  {
    if First(events, k) {
      j := k;
    } else {
      var i :| 0 <= i < |events[..k]| && events[..k][i].Section?
        && SectionNumber(events[..k][i].data) == SectionNumber(events[k].data);
      j := FirstOfNumber(events, i);
    }
  }

  /**
   When applicable sections with the same number agree, a program is hidden exactly when it is
   listed only by sections whose number was first met in a section that was not yet applicable.
   */
  lemma HiddenByEarlySections(events: seq<Event>, id: int)
    requires Consistent(events)
    ensures Hidden(events, id) <==> ListedBySome(events, id) && OnlyEarly(events, id)
  {
    hide Ids, Listing, Applicable;
    SomeIsFirstOrHidden(events, id);
    if Hidden(events, id) {
      forall k: nat | k < |events| && events[k].Section? && Applicable(events[k].data)
        && id in Ids(Listing(events[k].data))
        ensures StartedEarly(events, k)
      {
        var j := FirstOfNumber(events, k);
        if Applicable(events[j].data) {
          ListedByFirst(events, j, k, id);
        }
      }
    } else if ListedFirst(events, id) {
      var k: nat :| First(events, k) && Applicable(events[k].data) && id in Ids(Listing(events[k].data));
      assert !StartedEarly(events, k) by { FirstStartsItself(events, k); }
    }
  }

  lemma ListedByFirst(events: seq<Event>, j: nat, k: nat, id: int)
    requires Consistent(events) && First(events, j) && Applicable(events[j].data)
    requires k < |events| && events[k].Section? && Applicable(events[k].data) && id in Ids(Listing(events[k].data))
    requires SectionNumber(events[j].data) == SectionNumber(events[k].data)
    ensures ListedFirst(events, id)
  {
    hide Ids, Listing;
    assert Ids(Listing(events[j].data)) == Ids(Listing(events[k].data));
  }

  ghost predicate OnlyEarly(events: seq<Event>, id: int)
  {
    forall k: nat ::
      k < |events| && events[k].Section? && Applicable(events[k].data) && id in Ids(Listing(events[k].data)) ==>
      StartedEarly(events, k)
  }

  /** The number of section k was first met in a section that was not yet applicable. */
  ghost predicate StartedEarly(events: seq<Event>, k: nat)
    requires k < |events| && events[k].Section?
  {
    exists j: nat :: j <= k && First(events, j) && SectionNumber(events[j].data) == SectionNumber(events[k].data)
                     && !Applicable(events[j].data)
  }

  lemma FirstStartsItself(events: seq<Event>, k: nat)
    requires First(events, k) && Applicable(events[k].data)
    ensures !StartedEarly(events, k)
  {
    forall j: nat | j < k && events[j].Section? ensures SectionNumber(events[j].data) != SectionNumber(events[k].data) {
      assert events[..k][j] == events[j];
    }
  }

  lemma HiddenIsNotFirst(events: seq<Event>, id: int)
    ensures !(ListedFirst(events, id) && Hidden(events, id))
  {
  }

  // ---------- a channel that is removed although it is listed ----------

  /** A section that lists one program, or none for id 0. */
  function OneProgram(version: nat, applicable: bool, number: byte, last: byte, id: byte): (t: Table)
    requires version < 32
  {
    [0, 0xb0, if id == 0 then 9 else 13, 0, 1, 2 * version + (if applicable then 1 else 0),
     number, last, 0, id, 0xe1, 0]
    + Repeat(0, MAX_TS_SIZE - 12)
  }

  lemma OneProgramListed(version: nat, applicable: bool, number: byte, last: byte, id: byte)
    requires version < 32
    ensures var t := OneProgram(version, applicable, number, last, id);
      && Version(t) == version && Applicable(t) == applicable && SectionNumber(t) == number as nat && t[7] == last
      && Ids(Listing(t)) == if id == 0 then {} else {id as int}
  {
    var t := OneProgram(version, applicable, number, last, id);
    assert t[1] == 0xb0 && t[2] == if id == 0 then 9 else 13;
    assert t[5] == 2 * version + (if applicable then 1 else 0) && t[6] == number && t[7] == last;
    if id != 0 {
      assert ProgramAt(t, 0) == t[8..12] == [0, id, 0xe1, 0];
      assert Listing(t) == [ProgramAt(t, 0)];
      assert Number(Listing(t)[0]) == id as int;
    } else {
      assert Listing(t) == [];
    }
  }

  /**
   The case that breaks the promise.  While an update is wanted, section 1 of version 2 comes not yet
   applicable, then applicable, then section 0: the version completes, no update is wanted any more,
   and the channel that section 1 lists is removed.
   */
  lemma ListedButRemoved() returns (st0: State, events: seq<Event>)
    ensures Sound(st0) && st0.needUpdate && st0.version == 1 && OneVersion(st0, events, 2) && Consistent(events)
    ensures |st0.channels| == 1 && WasThere(st0.channels[0]) && ListedBySome(events, st0.channels[0].serviceId)
    ensures var now := Run(st0, events);
      now.allSeen && !now.needUpdate && |now.channels| == 1 && now.channels[0].ready == REMOVED
  {
    st0 := State(1, {0}, true, true, -1, 1, [Channel(5, true, READY, 0x100, false, [0x100], 3)]);
    var a, b, c := OneProgram(2, false, 1, 1, 5), OneProgram(2, true, 1, 1, 5), OneProgram(2, true, 0, 1, 0);
    OneProgramListed(2, false, 1, 1, 5);
    OneProgramListed(2, true, 1, 1, 5);
    OneProgramListed(2, true, 0, 1, 0);
    events := [Section(a), Section(b), Section(c)];
    assert events[..2] == [Section(a), Section(b)] && events[..2][..1] == [Section(a)] && [Section(a)][..0] == [];
    hide OneProgram, Version, Applicable, SectionNumber, Listing, Ids;
    ThreeSections(st0, a, b, c);
  }

  lemma ThreeSections(st0: State, a: Table, b: Table, c: Table)
    requires st0 == State(1, {0}, true, true, -1, 1, [Channel(5, true, READY, 0x100, false, [0x100], 3)])
    requires Version(a) == Version(b) == Version(c) == 2 && !Applicable(a) && Applicable(b) && Applicable(c)
    requires SectionNumber(a) == SectionNumber(b) == 1 && SectionNumber(c) == 0 && c[7] == 1
    requires Ids(Listing(b)) == {5} && Ids(Listing(c)) == {}
    ensures var events := [Section(a), Section(b), Section(c)];
      && Sound(st0) && OneVersion(st0, events, 2) && Consistent(events)
      && WasThere(st0.channels[0]) && ListedBySome(events, 5)
      && var now := Run(st0, events);
         now.allSeen && !now.needUpdate && |now.channels| == 1 && now.channels[0].ready == REMOVED
  {
    hide Version, Applicable, SectionNumber, Listing, Ids, UpdateAll;
    var events := [Section(a), Section(b), Section(c)];
    assert events[..2] == [Section(a), Section(b)] && events[..2][..1] == [Section(a)] && [Section(a)][..0] == [];
    assert events[1].Section? && events[0].Section?;
    var s1 := ReadPat(st0, a);
    assert s1.seen == {1} && s1.version == 2 && !s1.allSeen;
    assert s1.channels == [st0.channels[0].(ready := READY_EXISTING)];
    assert ReadPat(s1, b) == s1;
    RunThree(st0, Section(a), Section(b), Section(c), 2);
    NothingRead(s1.channels, Listing(c));
    assert Complete({1} + {0}, 1);
  }

  predicate Of(e: Event, v: int)
  {
    e.Section? ==> Version(e.data) == v
  }

  lemma RunThree(st0: State, e: Event, f: Event, g: Event, v: int)
    ensures var s1 := Step(st0, e);
      && Run(st0, [e, f, g]) == Step(Step(s1, f), g)
      && (e.Section? && !s1.allSeen && !Step(s1, f).allSeen && Of(e, v) && Of(f, v) && Of(g, v)
          ==> OneVersion(st0, [e, f, g], v))
  {
    hide Step, Version;
    assert [e, f, g][..2] == [e, f] && [e, f][..1] == [e] && [e][..0] == [];
    assert Run(st0, [e]) == Step(st0, e) && Run(st0, [e, f]) == Step(Step(st0, e), f);
    if e.Section? && !Step(st0, e).allSeen && !Step(Step(st0, e), f).allSeen && Of(e, v) && Of(f, v) && Of(g, v) {
      assert OneVersion(st0, [e], v);
      assert OneVersion(st0, [e, f], v);
    }
  }

  lemma {:induction false} NothingRead(channels: seq<Channel>, ps: seq<Program>)
    requires Ids(ps) == {}
    ensures UpdateAll(channels, ps) == channels
    decreases |ps|
  {
    if ps != [] {
      var e := ps[|ps| - 1];
      IdsSnoc(ps);
      assert Number(e) != 0 ==> Number(e) in Ids(ps);
      NothingRead(channels, ps[..|ps| - 1]);
    }
  }

  // ---------- a channel that is kept although it is not listed ----------

  /**
   The other case that breaks the promise.  An update of the channels falls between the two sections of
   a version: it takes the channel that waits to be listed for one that may be streamed, so that it is not
   removed when the version is complete, although no section lists it.
   */
  lemma UnlistedButReady() returns (st0: State, events: seq<Event>)
    ensures Sound(st0) && st0.needUpdate && st0.version == 1 && OneVersion(st0, events, 2) && events != []
    ensures |st0.channels| == 1 && WasThere(st0.channels[0]) && !ListedBySome(events, st0.channels[0].serviceId)
    ensures var now := Run(st0, events);
      now.allSeen && !now.needUpdate && |now.channels| == 1 && now.channels[0].ready == READY
  {
    hide OneProgram, Version, Applicable, SectionNumber, Listing, Ids, OneVersion, Run, ListedBySome;
    st0 := State(1, {0}, true, true, -1, 1, [Channel(5, true, READY, 0x100, false, [0x100], 3)]);
    var a, b := OneProgram(2, true, 0, 1, 0), OneProgram(2, true, 1, 1, 0);
    OneProgramListed(2, true, 0, 1, 0);
    OneProgramListed(2, true, 1, 1, 0);
    events := [Section(a), Update([WANTED]), Section(b)];
    UpdateBetween(st0, a, b);
  }

  lemma UpdateBetween(st0: State, a: Table, b: Table)
    requires st0 == State(1, {0}, true, true, -1, 1, [Channel(5, true, READY, 0x100, false, [0x100], 3)])
    requires Version(a) == Version(b) == 2 && Applicable(a) && Applicable(b)
    requires SectionNumber(a) == 0 && SectionNumber(b) == 1 && a[7] == b[7] == 1
    requires Ids(Listing(a)) == {} && Ids(Listing(b)) == {}
    ensures var events := [Section(a), Update([WANTED]), Section(b)];
      && OneVersion(st0, events, 2) && !ListedBySome(events, 5)
      && var now := Run(st0, events);
         now.allSeen && !now.needUpdate && |now.channels| == 1 && now.channels[0].ready == READY
  {
    hide Version, Applicable, SectionNumber, Listing, Ids, UpdateAll;
    var s1 := ReadPat(st0, a);
    NothingRead(Marked(st0.channels), Listing(a));
    assert 1 !in {0} && 1 !in s1.seen;
    assert s1.channels == [st0.channels[0].(ready := READY_EXISTING)];
    var s2 := Step(s1, Update([WANTED]));
    assert s2.channels == st0.channels;
    NothingRead(s2.channels, Listing(b));
    assert Complete({0} + {1}, 1);
    RunThree(st0, Section(a), Update([WANTED]), Section(b), 2);
  }
}

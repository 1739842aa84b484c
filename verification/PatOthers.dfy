/** What a version of the Program Association Table does to channels that were not in use when it began. */
module PatOthers {
  import opened Bytes
  import opened PatRewrite
  import opened PatTracking
  import opened PatVersions

  /** Not in use and autodetected, so that no version marks it. */
  predicate Unmarked(c: Channel)
  {
    c.ready != READY_EXISTING && !(c.ready == READY && c.detected)
  }

  /** No other channel has its id. */
  predicate Alone(channels: seq<Channel>, i: nat)
    requires i < |channels|
  {
    forall j :: 0 <= j < |channels| && j != i ==> channels[j].serviceId != channels[i].serviceId
  }

  /** The channel keeps its id and its status, but for a removed one that is listed. */
  ghost predicate Kept(before: seq<Channel>, after: seq<Channel>, i: nat, listed: bool)
    requires i < |before|
  {
    && i < |after| && Alone(after, i) && after[i].serviceId == before[i].serviceId
    && after[i].detected == before[i].detected
    && after[i].ready == if before[i].ready == REMOVED && listed then NOT_READY else before[i].ready
  }

  lemma UpdateChanKept(channels: seq<Channel>, e: Program, i: nat)
    requires i < |channels| && Alone(channels, i) && Unmarked(channels[i])
    ensures Kept(channels, UpdateChan(channels, e), i, channels[i].serviceId == Number(e))
  {
    hide NetworkPid, Number;
    var at := LastWith(channels, Number(e));
    if at.None? && |channels| < MAX_CHANNELS - 1 {
      assert UpdateChan(channels, e)[i] == channels[i];
    }
  }

  lemma {:induction false} UpdateAllKept(channels: seq<Channel>, ps: seq<Program>, i: nat)
    requires i < |channels| && Alone(channels, i) && Unmarked(channels[i])
    ensures Kept(channels, UpdateAll(channels, ps), i, channels[i].serviceId in Ids(ps))
    decreases |ps|
  {
    hide UpdateChan, Number, Ids;
    if ps == [] {
      NoIds();
    } else {
      var past, e := ps[..|ps| - 1], ps[|ps| - 1];
      UpdateAllKept(channels, past, i);
      IdsSnoc(ps);
      if Number(e) != 0 {
        UpdateChanKept(UpdateAll(channels, past), e, i);
      }
    }
  }

  lemma MarkedKept(channels: seq<Channel>, i: nat)
    requires i < |channels| && Alone(channels, i) && Unmarked(channels[i])
    ensures Kept(channels, Marked(channels), i, false) && Kept(channels, Settled(channels), i, false)
  {
  }

  /** One section. */
  lemma SectionKept(st: State, data: PatVersions.Table, i: nat)
    requires i < |st.channels| && Alone(st.channels, i) && Unmarked(st.channels[i])
    ensures Kept(st.channels, ReadPat(st, data).channels, i,
                 Reads(st, Section(data)) && st.channels[i].serviceId in Ids(Listing(data)))
  {
    hide UpdateAll, Marked, Settled, Ids, Listing, Complete;
    MarkedKept(st.channels, i);
    var current := NewVersion(st, data).channels;
    UpdateAllKept(current, Listing(data), i);
    MarkedKept(UpdateAll(current, Listing(data)), i);
  }

  /**
   Over the sections of a version, in any order and with repeats: a channel that was not in use when it began
   stays what it was, whether it is listed or not, but for a removed one, which starts over when it is listed.
   */
  lemma {:induction false} OthersKeep(st: State, events: seq<Event>, i: nat)
    requires i < |st.channels| && Alone(st.channels, i) && Unmarked(st.channels[i])
    requires forall e :: e in events ==> e.Section?
    ensures Kept(st.channels, Run(st, events).channels, i, st.channels[i].serviceId in Listed(st, events))
    decreases |events|
  {
    if events != [] {
      hide ReadPat, Reads, Ids, Listing;
      var past, e := events[..|events| - 1], events[|events| - 1];
      assert e in events;
      OthersKeep(st, past, i);
      SectionKept(Run(st, past), e.data, i);
    }
  }

  /** The first section of a new version: no other was seen, the SDT is to be read again, channels in use are marked. */
  lemma VersionBegins(st: State, data: PatVersions.Table, i: nat)
    requires Version(data) != st.version && !Applicable(data) && i < |st.channels|
    ensures var r, c := ReadPat(st, data), st.channels[i];
      && r.version == Version(data) && r.seen == {SectionNumber(data)} && !r.allSeen && r.sdtVersion == -1
      && r.needUpdate == st.needUpdate && r.tsId == st.tsId && |r.channels| == |st.channels|
      && r.channels[i] == if c.ready == READY && c.detected then c.(ready := READY_EXISTING) else c
  {
  }

  /** A section that completes its version ends the update, and asks for the PMT of every channel that is left. */
  lemma CompletedState(st: State, data: PatVersions.Table)
    ensures var r := ReadPat(st, data);
      var seen := (if Version(data) == st.version then st.seen else {}) + {SectionNumber(data)};
      if Reads(st, Section(data)) && forall n: nat :: n <= data[7] ==> n in seen then
        && r.allSeen && !r.needUpdate && r.sdtVersion == -1
        && forall c :: c in r.channels ==> c.ready != READY_EXISTING && (c.ready != REMOVED ==> c.pmtVersion == -1)
      else r.needUpdate == st.needUpdate && (r.allSeen ==> st.allSeen)
  {
    hide UpdateAll, Marked, Listing;
  }

  // ---------- what an update of all channels does to one of them ----------

  /** A channel of the user's, or a removed one, only has its network set up; the others go where the decision says. */
  lemma UpdatedChannel(channels: seq<Channel>, verdicts: seq<Verdict>, i: nat)
    requires i < |channels|
    ensures var c, d := channels[i], Updated(channels, verdicts)[i];
      && d == c.(ready := d.ready)
      && (c.ready == REMOVED ==> d.ready == REMOVED)
      && (!c.detected ==> d.ready == if c.ready == ALMOST_READY then READY else c.ready)
      && (c.detected && c.ready != REMOVED ==>
            d.ready == if c.pmtPid == 0 || (i < |verdicts| && verdicts[i] == UNWANTED) then NO_STREAMING
                       else if c.ready == ALMOST_READY || (i < |verdicts| && verdicts[i] == WANTED) then READY
                       else c.ready)
  {
  }

  // ---------- what no event takes from a channel ----------

  /** The same channel: its PIDs are those there were and perhaps more, and a PMT PID the user set stays. */
  predicate Extends(c: Channel, d: Channel)
  {
    && c.serviceId == d.serviceId && c.detected == d.detected && c.pids <= d.pids
    && c.pmtUser == d.pmtUser && (c.pmtUser ==> c.pmtPid == d.pmtPid)
  }

  predicate AllExtend(a: seq<Channel>, b: seq<Channel>)
  {
    |a| <= |b| && forall i :: 0 <= i < |a| ==> Extends(a[i], b[i])
  }

  lemma {:induction false} UpdateAllExtends(channels: seq<Channel>, ps: seq<Program>)
    ensures AllExtend(channels, UpdateAll(channels, ps))
    decreases |ps|
  {
    if ps != [] {
      hide Number, NetworkPid, LastWith;
      UpdateAllExtends(channels, ps[..|ps| - 1]);
    }
  }

  lemma OnesExtend(channels: seq<Channel>, verdicts: seq<Verdict>)
    ensures AllExtend(channels, channels) && AllExtend(channels, Marked(channels))
    ensures AllExtend(channels, Settled(channels)) && AllExtend(channels, Updated(channels, verdicts))
  {
  }

  lemma ExtendOn(a: seq<Channel>, b: seq<Channel>, c: seq<Channel>)
    requires AllExtend(a, b) && AllExtend(b, c)
    ensures AllExtend(a, c)
  {
    forall i | 0 <= i < |a| ensures Extends(a[i], c[i]) {
      assert Extends(a[i], b[i]) && Extends(b[i], c[i]);
    }
  }

  lemma StepExtends(st: State, e: Event)
    ensures AllExtend(st.channels, Step(st, e).channels)
  {
    hide AllExtend, UpdateAll, Listing, Complete, Marked, Settled, Updated;
    match e
    case Update(verdicts) =>
      OnesExtend(st.channels, verdicts);
    case Section(data) =>
      var current := NewVersion(st, data).channels;
      var updated := UpdateAll(current, Listing(data));
      OnesExtend(st.channels, []);
      UpdateAllExtends(current, Listing(data));
      ExtendOn(st.channels, current, updated);
      OnesExtend(updated, []);
      ExtendOn(st.channels, updated, Settled(updated));
  }

  /** Over any sections and updates. */
  lemma {:induction false} RunExtends(st: State, events: seq<Event>)
    ensures AllExtend(st.channels, Run(st, events).channels)
    decreases |events|
  {
    if events != [] {
      hide Step, AllExtend;
      var past, e := events[..|events| - 1], events[|events| - 1];
      RunExtends(st, past);
      StepExtends(Run(st, past), e);
      ExtendOn(st.channels, Run(st, past).channels, Run(st, events).channels);
    } else {
      OnesExtend(st.channels, []);
    }
  }
}

/** Following the Program Association Table: which channels exist, and which have gone. */
module PatTracking {
  import opened Bytes
  import opened Sections
  import opened PatRewrite

  const MAX_CHANNELS: nat := 128

  datatype Ready = REMOVED | NO_STREAMING | NOT_READY | ALMOST_READY | READY | READY_EXISTING

  datatype Channel = Channel(serviceId: int, detected: bool, ready: Ready, pmtPid: int, pmtUser: bool, pids: seq<int>,
    pmtVersion: int)

  datatype State = State(version: int, seen: set<nat>, allSeen: bool, needUpdate: bool, sdtVersion: int, tsId: int,
    channels: seq<Channel>)

  // ---------- one program ----------

  /** The last channel with the service id. */
  function LastWith(channels: seq<Channel>, id: int): (r: Option<nat>)
    ensures r.Some? ==> r.value < |channels| && channels[r.value].serviceId == id
    ensures r.None? ==> forall i :: 0 <= i < |channels| ==> channels[i].serviceId != id
    ensures r.Some? ==> forall i :: r.value < i < |channels| ==> channels[i].serviceId != id
  {
    if channels == [] then None
    else if channels[|channels| - 1].serviceId == id then Some(|channels| - 1)
    else LastWith(channels[..|channels| - 1], id)
  }

  function WithPid(pids: seq<int>, pid: int): seq<int>
  {
    if pid in pids then pids else pids + [pid]
  }

  /** A user's PMT PID is put in the list when the channel is initialised. */
  function Initialised(c: Channel): Channel
  {
    if c.pmtUser && c.pmtPid !in c.pids && |c.pids| < 127 then c.(pids := c.pids + [c.pmtPid]) else c
  }

  /** The table lists the channel: it is still there, or back. */
  function Refreshed(c: Channel, pid: int): Channel
  {
    var d := if c.ready == READY_EXISTING then c.(ready := READY)
             else if c.ready == REMOVED then Initialised(c.(ready := NOT_READY)) else c;
    var e := if d.pmtUser then d else d.(pmtPid := pid, pids := WithPid(d.pids, pid));
    e.(pmtVersion := -1)
  }

  function NewChannel(id: int): Channel
  {
    Channel(id, true, NOT_READY, 0, false, [], 0)
  }

  function UpdateChan(channels: seq<Channel>, e: Program): seq<Channel>
  {
    var at := LastWith(channels, Number(e));
    if at.Some? then channels[at.value := Refreshed(channels[at.value], NetworkPid(e))]
    else if |channels| >= MAX_CHANNELS - 1 then channels
    else channels + [Refreshed(NewChannel(Number(e)), NetworkPid(e))]
  }

  function UpdateAll(channels: seq<Channel>, ps: seq<Program>): seq<Channel>
  {
    if ps == [] then channels
    else
      var before := UpdateAll(channels, ps[..|ps| - 1]);
      if Number(ps[|ps| - 1]) == 0 then before else UpdateChan(before, ps[|ps| - 1])
  }

  // ---------- one section ----------

  function Version(data: seq<byte>): int
    requires |data| >= 8
  {
    data[5] / 2 % 32
  }

  function SectionNumber(data: seq<byte>): nat
    requires |data| >= 8
  {
    data[6]
  }

  predicate Applicable(data: seq<byte>)
    requires |data| >= 8
  {
    data[5] % 2 == 1
  }

  /** What a buffer that holds a section lists. */
  function Listing(data: seq<byte>): seq<Program>
    requires |data| == MAX_TS_SIZE
  {
    Programs(data, ProgramCount(SectionLength(data)))
  }

  /** A new version: the channels seen so far must show up again. */
  function Marked(channels: seq<Channel>): (m: seq<Channel>)
    ensures |m| == |channels|
  {
    seq(|channels|, i requires 0 <= i < |channels| =>
      if channels[i].ready == READY && channels[i].detected then channels[i].(ready := READY_EXISTING) else channels[i])
  }

  /** The version is complete: what did not show up is gone. */
  function Settled(channels: seq<Channel>): (m: seq<Channel>)
    ensures |m| == |channels|
  {
    seq(|channels|, i requires 0 <= i < |channels| =>
      if channels[i].ready == READY_EXISTING then channels[i].(ready := REMOVED) else channels[i].(pmtVersion := -1))
  }

  predicate Complete(seen: set<nat>, last: nat)
  {
    forall i: nat :: i <= last ==> i in seen
  }

  function NewVersion(st: State, data: seq<byte>): State
    requires |data| >= 8
  {
    if Version(data) == st.version then st
    else st.(version := Version(data), seen := {}, allSeen := false, sdtVersion := -1, channels := Marked(st.channels))
  }

  function ReadProgramsOf(st: State, data: seq<byte>): State
    requires |data| == MAX_TS_SIZE
  {
    st.(tsId := data[3] as int * 256 + data[4] as int, channels := UpdateAll(st.channels, Listing(data)))
  }

  function Finish(st: State, last: nat): State
  {
    if Complete(st.seen, last) then
      st.(allSeen := true, needUpdate := false, sdtVersion := -1, channels := Settled(st.channels))
    else st
  }

  function ReadPat(st: State, data: seq<byte>): State
    requires |data| == MAX_TS_SIZE
  {
    if Version(data) == st.version && SectionNumber(data) in st.seen then st
    else
      var current := NewVersion(st, data);
      var noted := current.(seen := current.seen + {SectionNumber(data)});
      if !Applicable(data) then noted else Finish(ReadProgramsOf(noted, data), data[7])
  }

  // ---------- the update of all channels ----------

  /** What the status update decides of an autodetected channel from its CA mode, its type and the lists of ids. */
  datatype Verdict = WANTED | UNWANTED | UNDECIDED

  /** What it decides in effect: a channel without a PMT PID is not streamed. */
  function Effective(c: Channel, v: Verdict): Verdict
  {
    if c.pmtPid == 0 then UNWANTED else v
  }

  function Ruled(c: Channel, v: Verdict): Channel
  {
    if c.ready == REMOVED || !c.detected then c
    else
      match Effective(c, v)
      case UNWANTED => c.(ready := NO_STREAMING)
      case WANTED => c.(ready := ALMOST_READY)
      case UNDECIDED => c
  }

  /** The network of a channel that is almost ready comes up. */
  function Connected(c: Channel): Channel
  {
    if c.ready == ALMOST_READY then c.(ready := READY) else c
  }

  function VerdictOn(verdicts: seq<Verdict>, i: nat): Verdict
  {
    if i < |verdicts| then verdicts[i] else UNDECIDED
  }

  /** The status update of all channels and the network update that follows it. */
  function Updated(channels: seq<Channel>, verdicts: seq<Verdict>): (u: seq<Channel>)
    ensures |u| == |channels|
  {
    seq(|channels|, i requires 0 <= i < |channels| => Connected(Ruled(channels[i], VerdictOn(verdicts, i))))
  }

  // ---------- ids ----------

  /** Autodetected channels have real ids that no other channel shares. */
  predicate OwnIds(channels: seq<Channel>)
  {
    && (forall i :: 0 <= i < |channels| && channels[i].detected ==> channels[i].serviceId != 0)
    && forall i, j :: 0 <= i < |channels| && 0 <= j < |channels| && i != j && channels[i].detected ==>
      channels[i].serviceId != channels[j].serviceId
  }

  /** Channels keep their place, their id and how the id came about. */
  predicate Grows(a: seq<Channel>, b: seq<Channel>)
  {
    |a| <= |b| && forall i :: 0 <= i < |a| ==> a[i].serviceId == b[i].serviceId && a[i].detected == b[i].detected
  }

  predicate Has(channels: seq<Channel>, id: int)
  {
    exists i :: 0 <= i < |channels| && channels[i].serviceId == id
  }

  lemma UpdateChanKeeps(channels: seq<Channel>, e: Program)
    requires OwnIds(channels) && |channels| <= MAX_CHANNELS && Number(e) != 0
    ensures var r := UpdateChan(channels, e);
      && OwnIds(r) && Grows(channels, r) && |r| <= MAX_CHANNELS
      && (Has(r, Number(e)) || |r| >= MAX_CHANNELS - 1)
  {
    var at := LastWith(channels, Number(e));
    var r := UpdateChan(channels, e);
    if at.Some? {
      assert r[at.value].serviceId == Number(e);
    } else if |channels| < MAX_CHANNELS - 1 {
      assert r[|channels|].serviceId == Number(e);
    }
  }

  /** The listed program's channel is asked for at the PMT PID of the table, unless the user set one. */
  lemma UpdateChanSetsPmt(channels: seq<Channel>, e: Program)
    requires |channels| < MAX_CHANNELS - 1 || LastWith(channels, Number(e)).Some?
    ensures var r := UpdateChan(channels, e);
      exists i :: 0 <= i < |r| && r[i].serviceId == Number(e) && r[i].pmtVersion == -1 && r[i].ready != REMOVED
        && r[i].ready != READY_EXISTING
        && (!r[i].pmtUser ==> r[i].pmtPid == NetworkPid(e) && NetworkPid(e) in r[i].pids)
        && (forall j :: 0 <= j < |channels| && j != i ==> r[j] == channels[j])
  {
    var at := LastWith(channels, Number(e));
    var i := if at.Some? then at.value else |channels|;
    assert UpdateChan(channels, e)[i].serviceId == Number(e);
  }

  lemma {:induction false} UpdateAllKeeps(channels: seq<Channel>, ps: seq<Program>)
    requires OwnIds(channels) && |channels| <= MAX_CHANNELS
    ensures var r := UpdateAll(channels, ps);
      && OwnIds(r) && Grows(channels, r) && |r| <= MAX_CHANNELS
      && forall k :: 0 <= k < |ps| && Number(ps[k]) != 0 ==> Has(r, Number(ps[k])) || |r| >= MAX_CHANNELS - 1
    decreases |ps|
  {
    hide UpdateChan, Number;
    if ps != [] {
      var past, e := ps[..|ps| - 1], ps[|ps| - 1];
      UpdateAllKeeps(channels, past);
      if Number(e) != 0 {
        UpdateChanKeeps(UpdateAll(channels, past), e);
        forall k | 0 <= k < |past| && Has(UpdateAll(channels, past), Number(past[k]))
          ensures Has(UpdateAll(channels, ps), Number(past[k]))
        {
          HasGrows(UpdateAll(channels, past), UpdateAll(channels, ps), Number(past[k]));
        }
      }
    }
  }

  lemma HasGrows(a: seq<Channel>, b: seq<Channel>, id: int)
    requires Grows(a, b) && Has(a, id)
    ensures Has(b, id)
  {
    var i :| 0 <= i < |a| && a[i].serviceId == id;
    assert b[i].serviceId == id;
  }

  // ---------- the fate of one autodetected channel ----------

  /** The program numbers a section lists. */
  function Ids(ps: seq<Program>): set<int>
  {
    set k | 0 <= k < |ps| && Number(ps[k]) != 0 :: Number(ps[k])
  }

  lemma IdsSnoc(ps: seq<Program>)
    requires ps != []
    ensures var e := ps[|ps| - 1]; Ids(ps) == Ids(ps[..|ps| - 1]) + if Number(e) != 0 then {Number(e)} else {}
  {
    var past, e := ps[..|ps| - 1], ps[|ps| - 1];
    forall id | id in Ids(ps) ensures id in Ids(past) + if Number(e) != 0 then {Number(e)} else {} {
      var k :| 0 <= k < |ps| && Number(ps[k]) != 0 && Number(ps[k]) == id;
      if k < |past| {
        assert past[k] == ps[k];
      }
    }
    forall id | id in Ids(past) ensures id in Ids(ps) {
      var k :| 0 <= k < |past| && Number(past[k]) != 0 && Number(past[k]) == id;
      assert past[k] == ps[k];
    }
  }

  /** Where the last verdict put it, or else waiting to be seen again, or seen again, according to listed. */
  predicate Awaits(c: Channel, verdict: Verdict, listed: bool)
  {
    c.detected && c.ready ==
      match verdict
      case WANTED => READY
      case UNWANTED => NO_STREAMING
      case UNDECIDED => if listed then READY else READY_EXISTING
  }

  lemma UpdateChanAwaits(channels: seq<Channel>, e: Program, i: nat, verdict: Verdict, listed: bool)
    requires OwnIds(channels) && i < |channels| && Awaits(channels[i], verdict, listed)
    ensures i < |UpdateChan(channels, e)|
    ensures Awaits(UpdateChan(channels, e)[i], verdict, listed || channels[i].serviceId == Number(e))
  {
  }

  lemma {:induction false} UpdateAllAwaits(channels: seq<Channel>, ps: seq<Program>, i: nat, verdict: Verdict,
    listed: bool)
    requires OwnIds(channels) && |channels| <= MAX_CHANNELS && i < |channels| && Awaits(channels[i], verdict, listed)
    ensures i < |UpdateAll(channels, ps)|
    ensures Awaits(UpdateAll(channels, ps)[i], verdict, listed || channels[i].serviceId in Ids(ps))
    decreases |ps|
  {
    hide UpdateChan, Number, Ids, Awaits;
    if ps == [] {
      NoIds();
    } else {
      var past, e := ps[..|ps| - 1], ps[|ps| - 1];
      UpdateAllKeeps(channels, past);
      UpdateAllAwaits(channels, past, i, verdict, listed);
      IdsSnoc(ps);
      if Number(e) != 0 {
        UpdateChanAwaits(UpdateAll(channels, past), e, i, verdict, listed || channels[i].serviceId in Ids(past));
      }
    }
  }

  lemma NoIds()
    ensures Ids([]) == {}
  {
  }
}

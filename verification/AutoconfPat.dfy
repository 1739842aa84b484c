/** autoconf_read_pat: the stored section updates the channel list in place. */
module AutoconfPat {
  import opened Bytes
  import opened Sections
  import opened PatRewrite
  import opened PatTracking

  class AutoPat {
    const channels: array<Channel>
    const sectionsSeen: array<bool>
    var numberOfChannels: nat
    var patVersion: int
    var allSectionsSeen: bool
    var needUpdate: bool
    var sdtVersion: int
    var transportStreamId: int

    ghost predicate Valid()
      reads this
    {
      channels.Length == MAX_CHANNELS && sectionsSeen.Length == 256 && numberOfChannels <= MAX_CHANNELS
    }

    ghost function Seen(): (s: set<nat>)
      requires sectionsSeen.Length == 256
      reads sectionsSeen
    {
      set i: nat | i < 256 && sectionsSeen[i]
    }

    ghost function Abs(): State
      requires Valid()
      reads this, channels, sectionsSeen
    {
      State(patVersion, Seen(), allSectionsSeen, needUpdate, sdtVersion, transportStreamId,
        channels[..numberOfChannels])
    }

    constructor (channels: array<Channel>, numberOfChannels: nat)
      requires channels.Length == MAX_CHANNELS && numberOfChannels <= MAX_CHANNELS
      ensures Valid() && this.channels == channels && fresh(sectionsSeen)
      ensures Abs() == State(-1, {}, false, true, -1, 0, channels[..numberOfChannels])
    {
      this.channels, this.numberOfChannels := channels, numberOfChannels;
      sectionsSeen := new bool[256](_ => false);
      patVersion, allSectionsSeen, needUpdate, sdtVersion, transportStreamId := -1, false, true, -1, 0;
    }

    /** The last channel with the id. */
    method FindChannel(id: int, ghost now: seq<Channel>) returns (chanNum: Option<nat>)
      requires Valid() && now == channels[..numberOfChannels]
      ensures chanNum == LastWith(now, id)
    {
      chanNum := None;
      for i := 0 to numberOfChannels
        invariant chanNum == LastWith(channels[..i], id)
      {
        assert channels[..i + 1][..i] == channels[..i];
        if channels[i].serviceId == id {
          chanNum := Some(i);
        }
      }
    }

    /** One listed program: a new channel if there is none, and the channel's state and PMT PID. */
    method UpdateChannel(e: Program, ghost now: seq<Channel>)
      requires Valid() && now == channels[..numberOfChannels]
      modifies this`numberOfChannels, channels
      ensures Valid() && channels[..numberOfChannels] == UpdateChan(now, e)
    {
      hide LastWith;
      var found := FindChannel(Number(e), now);
      var chanNum;
      if found.None? {
        if numberOfChannels >= MAX_CHANNELS - 1 {
          return;
        }
        chanNum := numberOfChannels;
        numberOfChannels := numberOfChannels + 1;
        channels[chanNum] := NewChannel(Number(e));
      } else {
        chanNum := found.value;
      }
      var c := channels[chanNum];
      if c.ready == READY_EXISTING {
        c := c.(ready := READY);
      } else if c.ready == REMOVED {
        c := Initialised(c.(ready := NOT_READY));
      }
      if !c.pmtUser {
        c := c.(pmtPid := NetworkPid(e), pids := WithPid(c.pids, NetworkPid(e)));
      }
      channels[chanNum] := c.(pmtVersion := -1);
    }

    /** A new version: no section seen, and the channels in use must show up again. */
    method BeginVersion(version: int, ghost now: seq<Channel>)
      requires Valid() && now == channels[..numberOfChannels]
      modifies this`allSectionsSeen, this`sdtVersion, this`patVersion, sectionsSeen, channels
      ensures Valid() && patVersion == version && !allSectionsSeen && sdtVersion == -1
      ensures Seen() == {} && channels[..numberOfChannels] == Marked(now)
    {
      allSectionsSeen := false;
      sdtVersion := -1;
      forall i | 0 <= i < 256 {
        sectionsSeen[i] := false;
      }
      patVersion := version;
      for i := 0 to numberOfChannels
        invariant Valid() && Seen() == {} && patVersion == version && !allSectionsSeen && sdtVersion == -1
        invariant forall j :: 0 <= j < i ==> channels[j] == Marked(now)[j]
        invariant forall j :: i <= j < numberOfChannels ==> channels[j] == now[j]
      {
        if channels[i].ready == READY && channels[i].detected {
          channels[i] := channels[i].(ready := READY_EXISTING);
        }
      }
    }

    method NoteSection(n: byte)
      requires Valid()
      modifies sectionsSeen
      ensures Seen() == old(Seen()) + {n as nat}
    {
      sectionsSeen[n] := true;
      assert forall i: nat :: i < 256 ==> sectionsSeen[i] == (old(sectionsSeen[i]) || i == n as nat);
    }

    /** The programs of the section, one after the other. */
    method ReadPrograms(buf: array<byte>, sectionLength: nat, ghost data: seq<byte>, ghost now: seq<Channel>)
      requires Valid() && buf.Length == MAX_TS_SIZE && data == buf[..] && now == channels[..numberOfChannels]
      requires 8 + 4 * ProgramCount(sectionLength) <= MAX_TS_SIZE
      modifies this`numberOfChannels, channels
      ensures Valid() && channels[..numberOfChannels] == UpdateAll(now, Programs(data, ProgramCount(sectionLength)))
    {
      hide UpdateChan, Number, UpdateAll, Programs;
      UpdateNone(now, data);
      var delta := PAT_LEN;
      ghost var k: nat := 0;
      while delta + PAT_PROG_LEN < sectionLength
        invariant Valid() && delta == 8 + 4 * k && k <= ProgramCount(sectionLength)
        invariant channels[..numberOfChannels] == UpdateAll(now, Programs(data, k))
      {
        var prog: Program := buf[delta..delta + 4];
        UpdateNext(now, data, k);
        if Number(prog) != 0 {
          UpdateChannel(prog, channels[..numberOfChannels]);
        }
        delta := delta + PAT_PROG_LEN;
        k := k + 1;
      }
    }

    method SectionsMissing(last: byte) returns (missing: nat)
      requires Valid()
      ensures missing == 0 <==> Complete(Seen(), last)
    {
      missing := 0;
      var i: nat := 0;
      while i <= last as nat
        invariant i <= last as nat + 1
        invariant missing == 0 <==> forall j: nat :: j < i ==> j in Seen()
      {
        assert i in Seen() <==> sectionsSeen[i];
        if !sectionsSeen[i] {
          missing := missing + 1;
        }
        i := i + 1;
      }
    }

    /** The version is complete. */
    method Settle(ghost now: seq<Channel>)
      requires Valid() && now == channels[..numberOfChannels]
      modifies this`allSectionsSeen, this`needUpdate, this`sdtVersion, channels
      ensures Valid() && allSectionsSeen && !needUpdate && sdtVersion == -1
      ensures channels[..numberOfChannels] == Settled(now)
    {
      allSectionsSeen := true;
      needUpdate := false;
      for i := 0 to numberOfChannels
        invariant Valid() && allSectionsSeen && !needUpdate
        invariant forall j :: 0 <= j < i ==> channels[j] == Settled(now)[j]
        invariant forall j :: i <= j < numberOfChannels ==> channels[j] == now[j]
      {
        if channels[i].ready == READY_EXISTING {
          channels[i] := channels[i].(ready := REMOVED);
        } else {
          channels[i] := channels[i].(pmtVersion := -1);
        }
      }
      if sdtVersion != -1 {
        sdtVersion := -1;
      }
    }

    method ReadApplicable(buf: array<byte>, ghost data: seq<byte>)
      requires Valid() && buf.Length == MAX_TS_SIZE && data == buf[..]
      modifies this`numberOfChannels, this`transportStreamId, this`allSectionsSeen, this`needUpdate, this`sdtVersion,
        channels
      ensures Valid() && Abs() == Finish(ReadProgramsOf(old(Abs()), data), data[7])
    {
      hide UpdateAll, Settled, Complete, Listing;
      transportStreamId := buf[3] as int * 256 + buf[4] as int;
      var sectionLength := buf[1] as int % 16 * 256 + buf[2] as int;
      ListingLength(data, sectionLength);
      ReadPrograms(buf, sectionLength, data, channels[..numberOfChannels]);
      var missing := SectionsMissing(buf[7]);
      if missing == 0 {
        Settle(channels[..numberOfChannels]);
      }
    }

    /** Decide which channels are streamed; verdicts are what the fields outside this model say. */
    method UpdateChanStatus(verdicts: seq<Verdict>, ghost now: seq<Channel>)
      requires Valid() && now == channels[..numberOfChannels]
      modifies channels
      ensures Valid() && forall j :: 0 <= j < numberOfChannels ==> channels[j] == Ruled(now[j], VerdictOn(verdicts, j))
    {
      for i := 0 to numberOfChannels
        invariant Valid()
        invariant forall j :: 0 <= j < i ==> channels[j] == Ruled(now[j], VerdictOn(verdicts, j))
        invariant forall j :: i <= j < numberOfChannels ==> channels[j] == now[j]
      {
        var c := channels[i];
        if c.ready == REMOVED || !c.detected {
          continue;
        }
        if VerdictOn(verdicts, i) == UNWANTED || c.pmtPid == 0 {
          channels[i] := c.(ready := NO_STREAMING);
          continue;
        }
        if VerdictOn(verdicts, i) == WANTED {
          channels[i] := c.(ready := ALMOST_READY);
        }
      }
    }

    /** The network of the channels that are almost ready is set up. */
    method UpdateChanNet(ghost now: seq<Channel>)
      requires Valid() && now == channels[..numberOfChannels]
      modifies channels
      ensures Valid() && forall j :: 0 <= j < numberOfChannels ==> channels[j] == Connected(now[j])
    {
      for i := 0 to numberOfChannels
        invariant Valid()
        invariant forall j :: 0 <= j < i ==> channels[j] == Connected(now[j])
        invariant forall j :: i <= j < numberOfChannels ==> channels[j] == now[j]
      {
        if channels[i].ready != ALMOST_READY {
          continue;
        }
        channels[i] := channels[i].(ready := READY);
      }
    }

    /** The update after changes that concern all channels. */
    method UpdateChannels(verdicts: seq<Verdict>)
      requires Valid()
      modifies channels
      ensures Valid() && Abs() == old(Abs()).(channels := Updated(old(Abs()).channels, verdicts))
    {
      ghost var now := channels[..numberOfChannels];
      UpdateChanStatus(verdicts, now);
      UpdateChanNet(channels[..numberOfChannels]);
      assert channels[..numberOfChannels] == Updated(now, verdicts);
    }

    /** Read the section in buf. */
    method ReadPat(buf: array<byte>)
      requires Valid() && buf.Length == MAX_TS_SIZE
      modifies this, channels, sectionsSeen
      ensures Valid() && Abs() == PatTracking.ReadPat(old(Abs()), buf[..])
    {
      hide Marked, Finish, ReadProgramsOf;
      ghost var data := buf[..];
      var version, number := buf[5] / 2 % 32, buf[6];
      if version as int == patVersion {
        if sectionsSeen[number] {
          return;
        }
      } else {
        BeginVersion(version as int, channels[..numberOfChannels]);
      }
      NoteSection(number);
      if buf[5] % 2 == 0 {
        return;
      }
      ReadApplicable(buf, data);
    }
  }

  lemma UpdateNone(now: seq<Channel>, data: seq<byte>)
    requires |data| == MAX_TS_SIZE
    ensures UpdateAll(now, Programs(data, 0)) == now
  {
  }

  lemma UpdateNext(now: seq<Channel>, data: seq<byte>, k: nat)
    requires 8 + 4 * (k + 1) <= |data|
    ensures ProgramAt(data, k) == data[8 + 4 * k..8 + 4 * k + 4]
    ensures var before, e := UpdateAll(now, Programs(data, k)), ProgramAt(data, k);
      UpdateAll(now, Programs(data, k + 1)) == if Number(e) == 0 then before else UpdateChan(before, e)
  {
    hide UpdateChan, Number;
    assert Programs(data, k + 1)[..k] == Programs(data, k);
  }

  lemma ListingLength(data: seq<byte>, sectionLength: nat)
    requires |data| == MAX_TS_SIZE && sectionLength == data[1] as int % 16 * 256 + data[2] as int
    ensures 8 + 4 * ProgramCount(sectionLength) <= MAX_TS_SIZE
    ensures Listing(data) == Programs(data, ProgramCount(sectionLength))
  {
  }
}

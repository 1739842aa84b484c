/** The chunk files of one HLS channel: a sliding window over the closed chunks. */
module Hls {
  import opened Bytes

  /** The name of a chunk file: service and the time it was opened. */
  datatype Name = Name(serviceId: int, time: nat)

  datatype Playlist = Playlist(mediaSequence: nat, chunks: seq<Name>)

  /** names[0] is being written, the last one is about to be deleted; disk holds the files there are. */
  datatype State = State(names: seq<Option<Name>>, sequence: nat, disk: set<Name>, playlist: Option<Playlist>)

  function NoNames(n: nat): (s: seq<Option<Name>>)
    ensures |s| == n && forall i :: 0 <= i < n ==> s[i].None?
  {
    seq(n, _ => None)
  }

  function Initial(rotateCount: nat, name: Name): State
  {
    State([Some(name)] + NoNames(rotateCount + 1), 0, {name}, None)
  }

  function Shifted(names: seq<Option<Name>>, name: Name): (s: seq<Option<Name>>)
    requires names != []
    ensures |s| == |names|
  {
    [Some(name)] + names[..|names| - 1]
  }

  /** The names from position x down to 1, the empty ones left out. */
  function Chunks(names: seq<Option<Name>>, x: nat): seq<Name>
    requires x < |names|
  {
    if x == 0 then [] else (if names[x].Some? then [names[x].value] else []) + Chunks(names, x - 1)
  }

  function Rotated(st: State, name: Name): State
    requires |st.names| >= 3
  {
    var names := Shifted(st.names, name);
    var n := |names|;
    var playlist := if st.sequence >= n - 3 then Some(Playlist(st.sequence, Chunks(names, n - 2))) else st.playlist;
    var disk := st.disk + {name};
    var last := names[n - 1];
    State(names[n - 1 := None], st.sequence + 1, if last.Some? then disk - {last.value} else disk, playlist)
  }

  /** A rotation at some time, and which files can be opened. */
  datatype Attempt = Attempt(time: nat, playlistOpens: bool, streamOpens: bool)

  predicate WritesPlaylist(st: State) { st.sequence + 3 >= |st.names| }

  predicate Opens(st: State, a: Attempt) { (WritesPlaylist(st) ==> a.playlistOpens) && a.streamOpens }

  /** A rotation that ends where a file cannot be opened: the names have moved, nothing is deleted. */
  function Attempted(st: State, serviceId: int, a: Attempt): (r: State)
    requires |st.names| >= 3
    ensures |r.names| == |st.names|
  {
    var names := Shifted(st.names, Name(serviceId, a.time));
    if Opens(st, a) then Rotated(st, Name(serviceId, a.time))
    else if WritesPlaylist(st) && a.playlistOpens then
      st.(names := names, playlist := Some(Playlist(st.sequence, Chunks(names, |names| - 2))))
    else st.(names := names)
  }

  /** The stream of the chunk being written: open, closed and still used, or none. */
  datatype Handle = OPEN | CLOSED | NONE

  function HandleAfter(st: State, a: Attempt): Handle
  {
    if WritesPlaylist(st) && !a.playlistOpens then CLOSED else if a.streamOpens then OPEN else NONE
  }

  // ---------- runs ----------

  /** The state after the channel was opened at times[0] and rotated at the others. */
  function Run(rotateCount: nat, serviceId: int, times: seq<nat>): (st: State)
    requires rotateCount >= 1 && times != []
    ensures |st.names| == rotateCount + 2
  {
    if |times| == 1 then Initial(rotateCount, Name(serviceId, times[0]))
    else Rotated(Run(rotateCount, serviceId, times[..|times| - 1]), Name(serviceId, times[|times| - 1]))
  }

  /** A chunk that is deleted has a time that none of the rotateCount + 1 chunks after it has. */
  predicate Spaced(rotateCount: nat, times: seq<nat>)
  {
    forall i: nat :: i + rotateCount + 1 < |times| ==> !Again(times, rotateCount, i)
  }

  /** The time of chunk i occurs again among the rotateCount + 1 chunks after it. */
  predicate Again(times: seq<nat>, rotateCount: nat, i: nat)
    requires i + rotateCount + 1 < |times|
  {
    exists j :: i < j <= i + rotateCount + 1 && times[j] == times[i]
  }

  /** The names of the chunks a .. b - 1. */
  function Window(serviceId: int, times: seq<nat>, a: nat, b: nat): (w: seq<Name>)
    requires a <= b <= |times|
    ensures |w| == b - a && forall i :: 0 <= i < b - a ==> w[i] == Name(serviceId, times[a + i])
  {
    seq(b - a, i requires 0 <= i < b - a => Name(serviceId, times[a + i]))
  }

  /** The array holds the latest names, newest first, and its last place is empty. */
  ghost predicate Holds(names: seq<Option<Name>>, serviceId: int, times: seq<nat>)
  {
    forall i :: 0 <= i < |names| ==>
      names[i] == if i < |names| - 1 && i < |times| then Some(Name(serviceId, times[|times| - 1 - i])) else None
  }

  lemma RunStep(rotateCount: nat, serviceId: int, times: seq<nat>)
    requires rotateCount >= 1 && |times| > 1
    ensures Run(rotateCount, serviceId, times)
         == Rotated(Run(rotateCount, serviceId, times[..|times| - 1]), Name(serviceId, times[|times| - 1]))
  {
  }

  lemma {:induction false} NamesHeld(rotateCount: nat, serviceId: int, times: seq<nat>)
    requires rotateCount >= 1 && times != []
    ensures var st := Run(rotateCount, serviceId, times);
      st.sequence == |times| - 1 && Holds(st.names, serviceId, times)
  {
    if |times| > 1 {
      NamesHeld(rotateCount, serviceId, times[..|times| - 1]);
      RunStep(rotateCount, serviceId, times);
      hide Run;
    }
  }

  lemma {:induction false} ChunksAreWindow(names: seq<Option<Name>>, x: nat, serviceId: int, times: seq<nat>)
    requires x < |names| && x < |times|
    requires forall i :: 0 <= i <= x ==> names[i] == Some(Name(serviceId, times[|times| - 1 - i]))
    ensures Chunks(names, x) == Window(serviceId, times, |times| - 1 - x, |times| - 1)
    decreases x
  {
    if x > 0 {
      ChunksAreWindow(names, x - 1, serviceId, times);
    }
  }

  /** The names in the array that are not empty. */
  ghost function Files(names: seq<Option<Name>>): set<Name>
  {
    set i | 0 <= i < |names| && names[i].Some? :: names[i].value
  }

  /** The files on disk are those named in the array. */
  ghost predicate Matches(st: State)
  {
    st.disk == Files(st.names)
  }

  lemma ShiftedFiles(names: seq<Option<Name>>, name: Name)
    requires names != [] && names[|names| - 1].None?
    ensures Files(Shifted(names, name)) == Files(names) + {name}
  {
    var s := Shifted(names, name);
    forall f | f in Files(names) + {name} ensures f in Files(s) {
      if f == name {
        assert s[0] == Some(f);
      } else {
        var i :| 0 <= i < |names| && names[i] == Some(f);
        assert s[i + 1] == Some(f);
      }
    }
    forall f | f in Files(s) ensures f in Files(names) + {name} {
      var i :| 0 <= i < |s| && s[i] == Some(f);
      assert i > 0 ==> names[i - 1] == Some(f);
    }
  }

  lemma DroppedFiles(names: seq<Option<Name>>)
    requires names != []
    ensures var n := |names| - 1;
      Files(names) == Files(names[n := None]) + if names[n].Some? then {names[n].value} else {}
  {
    var n := |names| - 1;
    var rest := names[n := None];
    forall f | f in Files(names) ensures f in Files(rest) || names[n] == Some(f) {
      var i :| 0 <= i < |names| && names[i] == Some(f);
      assert i < n ==> rest[i] == Some(f);
    }
    forall f | f in Files(rest) ensures f in Files(names) {
      var i :| 0 <= i < |rest| && rest[i] == Some(f);
      assert names[i] == Some(f);
    }
  }

  /** A rotation keeps the match exactly when the deleted name is not also one that stays. */
  lemma RotationMatches(st: State, name: Name)
    requires |st.names| >= 3 && Matches(st) && st.names[|st.names| - 1].None?
    ensures var last, now := st.names[|st.names| - 2], Rotated(st, name);
      Matches(now) <==> (last.Some? ==> last.value !in Files(now.names))
  {
    ShiftedFiles(st.names, name);
    DroppedFiles(Shifted(st.names, name));
  }

  lemma HeldAgain(names: seq<Option<Name>>, rotateCount: nat, serviceId: int, times: seq<nat>)
    requires |names| == rotateCount + 2 && |times| > rotateCount + 1 && Holds(names, serviceId, times)
    ensures var i := |times| - 2 - rotateCount;
      Name(serviceId, times[i]) in Files(names) <==> Again(times, rotateCount, i)
  {
    var i := |times| - 2 - rotateCount;
    if Name(serviceId, times[i]) in Files(names) {
      var x :| 0 <= x < |names| && names[x] == Some(Name(serviceId, times[i]));
      assert times[|times| - 1 - x] == times[i];
    }
    if Again(times, rotateCount, i) {
      var j :| i < j <= |times| - 1 && times[j] == times[i];
      assert names[|times| - 1 - j] == Some(Name(serviceId, times[i]));
    }
  }

  /** After the opening and after each rotation the files on disk are those named in the array. */
  ghost predicate AlwaysMatches(rotateCount: nat, serviceId: int, times: seq<nat>)
    requires rotateCount >= 1
  {
    times == []
    || (AlwaysMatches(rotateCount, serviceId, times[..|times| - 1]) && Matches(Run(rotateCount, serviceId, times)))
  }

  lemma SpacedSnoc(rotateCount: nat, times: seq<nat>)
    requires times != []
    ensures Spaced(rotateCount, times)
       <==> Spaced(rotateCount, times[..|times| - 1])
            && (|times| > rotateCount + 1 ==> !Again(times, rotateCount, |times| - 2 - rotateCount))
  {
    var past := times[..|times| - 1];
    forall i: nat
      ensures i + rotateCount + 1 < |past| ==> (Again(times, rotateCount, i) <==> Again(past, rotateCount, i))
    {
      if i + rotateCount + 1 < |past| {
        AgainPast(times, rotateCount, i);
      }
    }
    if Spaced(rotateCount, times) {
      forall i: nat | i + rotateCount + 1 < |past| ensures !Again(past, rotateCount, i) {
        assert !Again(times, rotateCount, i);
      }
    }
  }

  lemma AgainPast(times: seq<nat>, rotateCount: nat, i: nat)
    requires i + rotateCount + 2 < |times|
    ensures Again(times, rotateCount, i) <==> Again(times[..|times| - 1], rotateCount, i)
  {
    var past := times[..|times| - 1];
    if Again(times, rotateCount, i) {
      var j :| i < j <= i + rotateCount + 1 && times[j] == times[i];
      assert past[j] == past[i];
    }
    if Again(past, rotateCount, i) {
      var j :| i < j <= i + rotateCount + 1 && past[j] == past[i];
      assert times[j] == times[i];
    }
  }

  lemma OpenedMatches(rotateCount: nat, serviceId: int, t: nat)
    requires rotateCount >= 1
    ensures Matches(Run(rotateCount, serviceId, [t]))
  {
    assert Run(rotateCount, serviceId, [t]).names[0] == Some(Name(serviceId, t));
  }

  /**
   The files on disk are those named in the array, after every rotation, if and only if no deleted
   chunk shares its time with one of the rotateCount + 1 chunks after it.
   */
  lemma {:induction false} MatchesExactlyWhen(rotateCount: nat, serviceId: int, times: seq<nat>)
    requires rotateCount >= 1
    ensures AlwaysMatches(rotateCount, serviceId, times) <==> Spaced(rotateCount, times)
    decreases |times|
  {
    if times != [] {
      hide Run, Matches, Files, Again, Holds;
      MatchesExactlyWhen(rotateCount, serviceId, times[..|times| - 1]);
      SpacedSnoc(rotateCount, times);
      hide Spaced;
      if AlwaysMatches(rotateCount, serviceId, times[..|times| - 1]) {
        LastMatches(rotateCount, serviceId, times);
      }
    }
  }

  lemma LastMatches(rotateCount: nat, serviceId: int, times: seq<nat>)
    requires rotateCount >= 1 && times != [] && AlwaysMatches(rotateCount, serviceId, times[..|times| - 1])
    ensures Matches(Run(rotateCount, serviceId, times))
       <==> (|times| > rotateCount + 1 ==> !Again(times, rotateCount, |times| - 2 - rotateCount))
  {
    if |times| == 1 {
      hide *;
      OpenedMatches(rotateCount, serviceId, times[0]);
      assert times == [times[0]];
    } else {
      MatchesBefore(rotateCount, serviceId, times[..|times| - 1]);
      hide *;
      NextMatches(rotateCount, serviceId, times);
    }
  }

  lemma MatchesBefore(rotateCount: nat, serviceId: int, times: seq<nat>)
    requires rotateCount >= 1 && times != [] && AlwaysMatches(rotateCount, serviceId, times)
    ensures Matches(Run(rotateCount, serviceId, times))
  {
    hide Matches;
  }

  lemma NextMatches(rotateCount: nat, serviceId: int, times: seq<nat>)
    requires rotateCount >= 1 && |times| > 1 && Matches(Run(rotateCount, serviceId, times[..|times| - 1]))
    ensures Matches(Run(rotateCount, serviceId, times))
       <==> (|times| > rotateCount + 1 ==> !Again(times, rotateCount, |times| - 2 - rotateCount))
  {
    hide Matches, Files, Again, Holds, Run, Rotated;
    var past := times[..|times| - 1];
    NamesHeld(rotateCount, serviceId, past);
    NamesHeld(rotateCount, serviceId, times);
    RunStep(rotateCount, serviceId, times);
    var before := Run(rotateCount, serviceId, past);
    OldestHeld(before.names, rotateCount, serviceId, times);
    RotationMatches(before, Name(serviceId, times[|times| - 1]));
    if |times| > rotateCount + 1 {
      HeldAgain(Run(rotateCount, serviceId, times).names, rotateCount, serviceId, times);
    }
  }

  lemma OldestHeld(names: seq<Option<Name>>, rotateCount: nat, serviceId: int, times: seq<nat>)
    requires |names| == rotateCount + 2 && |times| > 1 && Holds(names, serviceId, times[..|times| - 1])
    ensures names[rotateCount + 1].None?
    ensures names[rotateCount]
         == if |times| > rotateCount + 1 then Some(Name(serviceId, times[|times| - 2 - rotateCount])) else None
  {
  }

  lemma {:induction false} PlaylistIs(rotateCount: nat, serviceId: int, times: seq<nat>)
    requires rotateCount >= 1 && times != []
    ensures var st, k := Run(rotateCount, serviceId, times), |times| - 1;
      st.playlist
      == if k < rotateCount then None else Some(Playlist(k - 1, Window(serviceId, times, k - rotateCount, k)))
  {
    if |times| > 1 {
      hide Run, Chunks;
      var past, name := times[..|times| - 1], Name(serviceId, times[|times| - 1]);
      PlaylistIs(rotateCount, serviceId, past);
      NamesHeld(rotateCount, serviceId, past);
      RunStep(rotateCount, serviceId, times);
      var names := Shifted(Run(rotateCount, serviceId, past).names, name);
      if |times| - 1 >= rotateCount {
        ShiftedHolds(Run(rotateCount, serviceId, past).names, serviceId, times, rotateCount);
        ChunksAreWindow(names, rotateCount, serviceId, times);
      }
    }
  }

  lemma ShiftedHolds(names: seq<Option<Name>>, serviceId: int, times: seq<nat>, x: nat)
    requires |times| > 1 && names != [] && Holds(names, serviceId, times[..|times| - 1])
    requires x < |names| && x < |times|
    ensures var s := Shifted(names, Name(serviceId, times[|times| - 1]));
      forall i :: 0 <= i <= x ==> s[i] == Some(Name(serviceId, times[|times| - 1 - i]))
  {
  }

  /**
   The playlist lists exactly the last rotateCount closed chunks, oldest first, and its media
   sequence is the oldest one's number plus a constant; before the first full window there is none.
   */
  lemma PlaylistWindow(rotateCount: nat, serviceId: int, times: seq<nat>)
    requires rotateCount >= 1 && times != []
    ensures var st, k := Run(rotateCount, serviceId, times), |times| - 1;
      && (k < rotateCount ==> st.playlist.None?)
      && (k >= rotateCount ==>
            var oldest := k - rotateCount;
            st.playlist == Some(Playlist(oldest + (rotateCount - 1),
              Window(serviceId, times, oldest, oldest + rotateCount))))
  {
    hide Run;
    PlaylistIs(rotateCount, serviceId, times);
  }

  /** Moreover, with spaced times all listed files exist, and the files on disk are those named in the array. */
  lemma SlidingWindow(rotateCount: nat, serviceId: int, times: seq<nat>)
    requires rotateCount >= 1 && times != [] && Spaced(rotateCount, times)
    ensures var st := Run(rotateCount, serviceId, times);
      && st.disk == Files(st.names)
      && (st.playlist.Some? ==> forall f :: f in st.playlist.value.chunks ==> f in st.disk)
  {
    MatchesExactlyWhen(rotateCount, serviceId, times);
    PlaylistWindow(rotateCount, serviceId, times);
    NamesHeld(rotateCount, serviceId, times);
    hide Run, Files;
    var st, k := Run(rotateCount, serviceId, times), |times| - 1;
    if k >= rotateCount {
      forall f | f in st.playlist.value.chunks ensures f in st.disk {
        WindowIsNamed(st.names, rotateCount, serviceId, times, f);
      }
    }
  }

  lemma WindowIsNamed(names: seq<Option<Name>>, rotateCount: nat, serviceId: int, times: seq<nat>, f: Name)
    requires |names| == rotateCount + 2 && |times| > rotateCount && Holds(names, serviceId, times)
    requires f in Window(serviceId, times, |times| - 1 - rotateCount, |times| - 1)
    ensures f in Files(names)
  {
    var a := |times| - 1 - rotateCount;
    var i :| 0 <= i < rotateCount && Window(serviceId, times, a, a + rotateCount)[i] == f;
    assert names[rotateCount - i] == Some(f);
  }

  /**
   Two rotations in one second lose a listed file.  Such times can arise: the periodic task tests
   rotate_time before it takes the lock, so it can ask for a rotation that another thread is just
   making, and that thread's next buffer then rotates again in the same second.
   */
  lemma EqualTimesLoseFiles(serviceId: int)
    ensures var st := Run(1, serviceId, [0, 10, 10, 20]);
      && st.playlist == Some(Playlist(2, [Name(serviceId, 10)])) && st.disk == {Name(serviceId, 20)}
  {
    var a, b, c := Name(serviceId, 0), Name(serviceId, 10), Name(serviceId, 20);
    assert [0, 10, 10, 20][..3] == [0, 10, 10] && [0, 10, 10][..2] == [0, 10] && [0, 10][..1] == [0];
    var s0 := Initial(1, a);
    assert s0.names == [Some(a), None, None];
    var s1 := Rotated(s0, b);
    assert s1.names == [Some(b), Some(a), None];
    var s2 := Rotated(s1, b);
    assert s2.names == [Some(b), Some(b), None];
    var shifted := Shifted(s2.names, c);
    assert shifted == [Some(c), Some(b), Some(b)];
    assert Chunks(shifted, 1) == [b] + Chunks(shifted, 0) == [b];
    assert Run(1, serviceId, [0, 10]) == s1;
    assert Run(1, serviceId, [0, 10, 10]) == s2;
    assert Run(1, serviceId, [0, 10, 10, 20]) == Rotated(s2, c);
  }

  // ---------- the entry ----------

  class Entry {
    const serviceId: int
    const filenames: array<Option<Name>>
    var sequence: nat
    var playlist: Option<Playlist>
    var stream: Handle
    ghost var disk: set<Name>

    ghost predicate Valid()
    {
      filenames.Length >= 3
    }

    ghost function Abs(): State
      reads this, filenames
    {
      State(filenames[..], sequence, disk, playlist)
    }

    /** Open the channel's first chunk. */
    constructor (serviceId: int, rotateCount: nat, accessTime: nat)
      requires rotateCount >= 1
      ensures Valid() && fresh(filenames) && this.serviceId == serviceId
      ensures Abs() == Initial(rotateCount, Name(serviceId, accessTime))
    {
      this.serviceId := serviceId;
      filenames := new Option<Name>[rotateCount + 2](_ => None);
      sequence, playlist, stream, disk := 0, None, OPEN, {Name(serviceId, accessTime)};
      new;
      filenames[0] := Some(Name(serviceId, accessTime));
      assert filenames[..] == Initial(rotateCount, Name(serviceId, accessTime)).names;
    }

    /** The list of chunks, from the oldest. */
    method WritePlaylist() returns (chunks: seq<Name>)
      requires Valid()
      ensures chunks == Chunks(filenames[..], filenames.Length - 2)
    {
      chunks := [];
      var x := filenames.Length - 2;
      while x > 0
        invariant 0 <= x <= filenames.Length - 2
        invariant chunks + Chunks(filenames[..], x) == Chunks(filenames[..], filenames.Length - 2)
      {
        if filenames[x].Some? {
          chunks := chunks + [filenames[x].value];
        }
        x := x - 1;
      }
    }

    /** Every name moves one place on, and the last one falls out. */
    method MoveNames(name: Name)
      requires Valid()
      modifies filenames
      ensures filenames[..] == Shifted(old(filenames[..]), name)
    {
      forall i | 1 <= i < filenames.Length {
        filenames[i] := filenames[i - 1];
      }
      filenames[0] := Some(name);
    }

    method DeleteOldest()
      requires Valid()
      modifies this`disk, filenames
      ensures var names := old(filenames[..]);
        && filenames[..] == names[|names| - 1 := None]
        && disk == if names[|names| - 1].Some? then old(disk) - {names[|names| - 1].value} else old(disk)
    {
      var deletePos := filenames.Length - 1;
      if filenames[deletePos].Some? {
        disk := disk - {filenames[deletePos].value};
        filenames[deletePos] := None;
      }
    }

    /**
     Close the chunk being written and open the next.  When the playlist or the chunk cannot be
     opened the call ends there, with the names already moved.
     */
    method Rotate(accessTime: nat, playlistOpens: bool, streamOpens: bool) returns (ok: bool)
      requires Valid()
      modifies this, filenames
      ensures Valid()
      ensures var a := Attempt(accessTime, playlistOpens, streamOpens);
        && ok == Opens(old(Abs()), a) && Abs() == Attempted(old(Abs()), serviceId, a)
        && stream == HandleAfter(old(Abs()), a)
    {
      hide Chunks, Shifted;
      stream := CLOSED;
      MoveNames(Name(serviceId, accessTime));
      if sequence + 3 >= filenames.Length {
        var chunks := WritePlaylist();
        if !playlistOpens {
          return false;
        }
        playlist := Some(Playlist(sequence, chunks));
      }
      if !streamOpens {
        stream := NONE;
        return false;
      }
      stream := OPEN;
      disk := disk + {Name(serviceId, accessTime)};
      DeleteOldest();
      sequence := sequence + 1;
      ok := true;
    }
  }
}

/** Runs of an HLS channel in which some files cannot be opened: names move on, files stay behind. */
module HlsOpens {
  import opened Bytes
  import opened Hls

  /** The state after the channel was opened at time t0 and the rotations were attempted. */
  function RunOf(rotateCount: nat, serviceId: int, t0: nat, attempts: seq<Attempt>): (st: State)
    requires rotateCount >= 1
    ensures |st.names| == rotateCount + 2
  {
    if attempts == [] then Initial(rotateCount, Name(serviceId, t0))
    else Attempted(RunOf(rotateCount, serviceId, t0, attempts[..|attempts| - 1]), serviceId, attempts[|attempts| - 1])
  }

  /** The time of chunk k: chunk 0 is the one the channel was opened with. */
  function TimeOf(t0: nat, attempts: seq<Attempt>, k: nat): nat
    requires k <= |attempts|
  {
    if k == 0 then t0 else attempts[k - 1].time
  }

  /** The files needed for chunk k could be opened. */
  predicate Opened(rotateCount: nat, serviceId: int, t0: nat, attempts: seq<Attempt>, k: nat)
    requires rotateCount >= 1 && k <= |attempts|
  {
    k == 0 || Opens(RunOf(rotateCount, serviceId, t0, attempts[..k - 1]), attempts[k - 1])
  }

  lemma OpenedPast(rotateCount: nat, serviceId: int, t0: nat, attempts: seq<Attempt>, k: nat)
    requires rotateCount >= 1 && k < |attempts|
    ensures var past := attempts[..|attempts| - 1];
      && Opened(rotateCount, serviceId, t0, past, k) == Opened(rotateCount, serviceId, t0, attempts, k)
      && TimeOf(t0, past, k) == TimeOf(t0, attempts, k)
  {
    hide RunOf, Opens;
    if k > 0 {
      assert attempts[..|attempts| - 1][..k - 1] == attempts[..k - 1];
    }
  }

  /** The array names the latest chunks, opened or not; its last place is taken only after a failure. */
  ghost predicate Names(names: seq<Option<Name>>, serviceId: int, t0: nat, attempts: seq<Attempt>, failed: bool)
  {
    forall i :: 0 <= i < |names| ==>
      names[i] == if i <= |attempts| && (i < |names| - 1 || failed)
                  then Some(Name(serviceId, TimeOf(t0, attempts, |attempts| - i))) else None
  }

  lemma {:induction false} NamesAre(rotateCount: nat, serviceId: int, t0: nat, attempts: seq<Attempt>)
    requires rotateCount >= 1
    ensures Names(RunOf(rotateCount, serviceId, t0, attempts).names, serviceId, t0, attempts,
                  !Opened(rotateCount, serviceId, t0, attempts, |attempts|))
    decreases |attempts|
  {
    if attempts != [] {
      var past, a := attempts[..|attempts| - 1], attempts[|attempts| - 1];
      NamesAre(rotateCount, serviceId, t0, past);
      var st := RunOf(rotateCount, serviceId, t0, past);
      AttemptedNames(st, serviceId, a);
      hide RunOf, Opens, Attempted;
      NamesMove(st.names, serviceId, t0, attempts, !Opened(rotateCount, serviceId, t0, past, |past|), !Opens(st, a));
    }
  }

  lemma AttemptedNames(st: State, serviceId: int, a: Attempt)
    requires |st.names| >= 3
    ensures var moved := Shifted(st.names, Name(serviceId, a.time));
      Attempted(st, serviceId, a).names == if Opens(st, a) then moved[|moved| - 1 := None] else moved
  {
    hide Chunks, Opens;
  }

  lemma MovedAt(names: seq<Option<Name>>, name: Name, i: nat)
    requires i < |names|
    ensures Shifted(names, name)[i] == if i == 0 then Some(name) else names[i - 1]
  {
  }

  lemma TimePast(t0: nat, attempts: seq<Attempt>, k: nat)
    requires k < |attempts|
    ensures TimeOf(t0, attempts[..|attempts| - 1], k) == TimeOf(t0, attempts, k)
  {
  }

  lemma NamesMove(names: seq<Option<Name>>, serviceId: int, t0: nat, attempts: seq<Attempt>, before: bool, failed: bool)
    requires attempts != [] && |names| >= 3 && Names(names, serviceId, t0, attempts[..|attempts| - 1], before)
    ensures var moved := Shifted(names, Name(serviceId, attempts[|attempts| - 1].time));
      Names(if failed then moved else moved[|moved| - 1 := None], serviceId, t0, attempts, failed)
  {
    var m, past, name := |attempts|, attempts[..|attempts| - 1], Name(serviceId, attempts[|attempts| - 1].time);
    var moved := Shifted(names, name);
    assert TimeOf(t0, attempts, m) == name.time;
    hide Shifted, TimeOf;
    var now := if failed then moved else moved[|moved| - 1 := None];
    forall i | 0 <= i < |now|
      ensures now[i] == if i <= m && (i < |now| - 1 || failed)
                        then Some(Name(serviceId, TimeOf(t0, attempts, m - i))) else None
    {
      MovedAt(names, name, i);
      if 0 < i <= m {
        TimePast(t0, attempts, m - i);
      }
    }
  }

  /** No two chunks share a time. */
  ghost predicate Distinct(t0: nat, attempts: seq<Attempt>)
  {
    forall j, k :: 0 <= j < k <= |attempts| ==> TimeOf(t0, attempts, j) != TimeOf(t0, attempts, k)
  }

  /** Chunk k was opened, and the rotation that was to delete it has not come or failed. */
  predicate Stays(rotateCount: nat, serviceId: int, t0: nat, attempts: seq<Attempt>, k: nat)
    requires rotateCount >= 1 && k <= |attempts|
  {
    && Opened(rotateCount, serviceId, t0, attempts, k)
    && (k + rotateCount + 1 <= |attempts| ==> !Opened(rotateCount, serviceId, t0, attempts, k + rotateCount + 1))
  }

  ghost predicate DiskIs(disk: set<Name>, rotateCount: nat, serviceId: int, t0: nat, attempts: seq<Attempt>)
    requires rotateCount >= 1
  {
    forall f :: f in disk <==> exists k: nat ::
      k <= |attempts| && Stays(rotateCount, serviceId, t0, attempts, k) && f == Name(serviceId, TimeOf(t0, attempts, k))
  }

  /**
   The files on disk, whatever could be opened: those of the chunks that were opened, but for those whose
   turn to be deleted came with a rotation that succeeded.  The others are left behind for good.
   */
  lemma {:induction false} DiskExactly(rotateCount: nat, serviceId: int, t0: nat, attempts: seq<Attempt>)
    requires rotateCount >= 1 && Distinct(t0, attempts)
    ensures DiskIs(RunOf(rotateCount, serviceId, t0, attempts).disk, rotateCount, serviceId, t0, attempts)
    decreases |attempts|
  {
    if attempts == [] {
      OnlyFirst(rotateCount, serviceId, t0);
    } else {
      var past := attempts[..|attempts| - 1];
      DistinctPast(t0, attempts);
      DiskExactly(rotateCount, serviceId, t0, past);
      DiskNext(rotateCount, serviceId, t0, attempts);
    }
  }

  lemma OnlyFirst(rotateCount: nat, serviceId: int, t0: nat)
    requires rotateCount >= 1
    ensures DiskIs(RunOf(rotateCount, serviceId, t0, []).disk, rotateCount, serviceId, t0, [])
  {
    assert Stays(rotateCount, serviceId, t0, [], 0) && TimeOf(t0, [], 0) == t0;
  }

  lemma DistinctPast(t0: nat, attempts: seq<Attempt>)
    requires attempts != [] && Distinct(t0, attempts)
    ensures Distinct(t0, attempts[..|attempts| - 1])
  {
    var past := attempts[..|attempts| - 1];
    forall j, k | 0 <= j < k <= |past| ensures TimeOf(t0, past, j) != TimeOf(t0, past, k) {
      assert TimeOf(t0, past, j) == TimeOf(t0, attempts, j) && TimeOf(t0, past, k) == TimeOf(t0, attempts, k);
    }
  }

  /** A chunk stays after one more rotation if it stayed before and is not the one deleted now, or is new. */
  lemma StaysNext(rotateCount: nat, serviceId: int, t0: nat, attempts: seq<Attempt>, k: nat)
    requires rotateCount >= 1 && attempts != [] && k <= |attempts|
    ensures var m, ok := |attempts|, Opened(rotateCount, serviceId, t0, attempts, |attempts|);
      Stays(rotateCount, serviceId, t0, attempts, k)
      <==> if k == m then ok
           else Stays(rotateCount, serviceId, t0, attempts[..m - 1], k) && !(ok && k + rotateCount + 1 == m)
  {
    hide Opened;
    var m := |attempts|;
    if k < m {
      OpenedPast(rotateCount, serviceId, t0, attempts, k);
      if k + rotateCount + 1 < m {
        OpenedPast(rotateCount, serviceId, t0, attempts, k + rotateCount + 1);
      }
    }
  }

  lemma AttemptedDisk(st: State, serviceId: int, a: Attempt)
    requires |st.names| >= 3
    ensures var last, name := st.names[|st.names| - 2], Name(serviceId, a.time);
      Attempted(st, serviceId, a).disk
      == if !Opens(st, a) then st.disk else st.disk + {name} - (if last.Some? then {last.value} else {})
  {
    hide Chunks, Opens;
    var last := st.names[|st.names| - 2];
    assert Shifted(st.names, Name(serviceId, a.time))[|st.names| - 1] == last;
  }

  /** The name whose turn comes with the rotation after these. */
  lemma NextDeleted(rotateCount: nat, serviceId: int, t0: nat, past: seq<Attempt>)
    requires rotateCount >= 1
    ensures RunOf(rotateCount, serviceId, t0, past).names[rotateCount]
         == if rotateCount <= |past| then Some(Name(serviceId, TimeOf(t0, past, |past| - rotateCount))) else None
  {
    hide RunOf, Opened;
    NamesAre(rotateCount, serviceId, t0, past);
  }

  /** What one rotation does to the disk: with m chunks before it, it deletes chunk m - rotateCount - 1. */
  lemma DiskStep(rotateCount: nat, serviceId: int, t0: nat, attempts: seq<Attempt>)
    requires rotateCount >= 1 && attempts != []
    ensures var m := |attempts|;
      var before := RunOf(rotateCount, serviceId, t0, attempts[..m - 1]).disk;
      RunOf(rotateCount, serviceId, t0, attempts).disk
      == if !Opened(rotateCount, serviceId, t0, attempts, m) then before
         else before + {Name(serviceId, TimeOf(t0, attempts, m))}
              - (if m >= rotateCount + 1 then {Name(serviceId, TimeOf(t0, attempts, m - rotateCount - 1))} else {})
  {
    var m, past, a := |attempts|, attempts[..|attempts| - 1], attempts[|attempts| - 1];
    RunOfLast(rotateCount, serviceId, t0, attempts);
    LastOpened(rotateCount, serviceId, t0, attempts);
    AttemptedDisk(RunOf(rotateCount, serviceId, t0, past), serviceId, a);
    NextDeleted(rotateCount, serviceId, t0, past);
    if m >= rotateCount + 1 {
      OpenedPast(rotateCount, serviceId, t0, attempts, m - rotateCount - 1);
    }
    hide RunOf, Opened, Opens, Attempted;
  }

  lemma RunOfLast(rotateCount: nat, serviceId: int, t0: nat, attempts: seq<Attempt>)
    requires rotateCount >= 1 && attempts != []
    ensures var m := |attempts|;
      RunOf(rotateCount, serviceId, t0, attempts)
      == Attempted(RunOf(rotateCount, serviceId, t0, attempts[..m - 1]), serviceId, attempts[m - 1])
  {
  }

  lemma LastOpened(rotateCount: nat, serviceId: int, t0: nat, attempts: seq<Attempt>)
    requires rotateCount >= 1 && attempts != []
    ensures Opened(rotateCount, serviceId, t0, attempts, |attempts|)
         == Opens(RunOf(rotateCount, serviceId, t0, attempts[..|attempts| - 1]), attempts[|attempts| - 1])
  {
  }

  lemma DiskNext(rotateCount: nat, serviceId: int, t0: nat, attempts: seq<Attempt>)
    requires rotateCount >= 1 && attempts != [] && Distinct(t0, attempts)
    requires var past := attempts[..|attempts| - 1];
      DiskIs(RunOf(rotateCount, serviceId, t0, past).disk, rotateCount, serviceId, t0, past)
    ensures DiskIs(RunOf(rotateCount, serviceId, t0, attempts).disk, rotateCount, serviceId, t0, attempts)
  {
    var m, past := |attempts|, attempts[..|attempts| - 1];
    DiskStep(rotateCount, serviceId, t0, attempts);
    forall k: nat | k <= m
      ensures k < m ==> TimeOf(t0, past, k) == TimeOf(t0, attempts, k)
      ensures Stays(rotateCount, serviceId, t0, attempts, k)
         <==> if k == m then Opened(rotateCount, serviceId, t0, attempts, m)
              else Stays(rotateCount, serviceId, t0, past, k)
                   && !(Opened(rotateCount, serviceId, t0, attempts, m) && k + rotateCount + 1 == m)
    {
      StaysNext(rotateCount, serviceId, t0, attempts, k);
    }
    hide Stays, Opened, RunOf;
    DiskMembers(RunOf(rotateCount, serviceId, t0, past).disk, RunOf(rotateCount, serviceId, t0, attempts).disk,
                rotateCount, serviceId, t0, attempts);
  }

  /** The same in terms of members. */
  lemma DiskMembers(before: set<Name>, disk: set<Name>,
                    rotateCount: nat, serviceId: int, t0: nat, attempts: seq<Attempt>)
    requires rotateCount >= 1 && attempts != [] && Distinct(t0, attempts)
    requires DiskIs(before, rotateCount, serviceId, t0, attempts[..|attempts| - 1])
    requires var m := |attempts|;
      disk == if !Opened(rotateCount, serviceId, t0, attempts, m) then before
              else before + {Name(serviceId, TimeOf(t0, attempts, m))}
                   - (if m >= rotateCount + 1 then {Name(serviceId, TimeOf(t0, attempts, m - rotateCount - 1))} else {})
    requires var m, past := |attempts|, attempts[..|attempts| - 1];
      forall k: nat :: k <= m ==>
        && (k < m ==> TimeOf(t0, past, k) == TimeOf(t0, attempts, k))
        && (Stays(rotateCount, serviceId, t0, attempts, k)
            <==> if k == m then Opened(rotateCount, serviceId, t0, attempts, m)
                 else Stays(rotateCount, serviceId, t0, past, k)
                      && !(Opened(rotateCount, serviceId, t0, attempts, m) && k + rotateCount + 1 == m))
    ensures DiskIs(disk, rotateCount, serviceId, t0, attempts)
  {
    hide Stays, Opened;
    var m, past := |attempts|, attempts[..|attempts| - 1];
    forall f | f in disk
      ensures exists k: nat ::
        k <= m && Stays(rotateCount, serviceId, t0, attempts, k) && f == Name(serviceId, TimeOf(t0, attempts, k))
    {
      if f in before {
        var k: nat :| k <= |past| && Stays(rotateCount, serviceId, t0, past, k)
                      && f == Name(serviceId, TimeOf(t0, past, k));
        assert Stays(rotateCount, serviceId, t0, attempts, k);
      } else {
        assert Stays(rotateCount, serviceId, t0, attempts, m);
      }
    }
    forall k: nat | k <= m && Stays(rotateCount, serviceId, t0, attempts, k)
      ensures Name(serviceId, TimeOf(t0, attempts, k)) in disk
    {
      if k < m {
        assert Stays(rotateCount, serviceId, t0, past, k);
        assert Name(serviceId, TimeOf(t0, past, k)) in before;
      }
    }
  }

  // ---------- which rotations succeed, and the playlist ----------

  /** How many of the rotations were completed, counted from what could be opened alone. */
  function Completed(rotateCount: nat, attempts: seq<Attempt>): nat
    requires rotateCount >= 1
    decreases |attempts|, 0
  {
    if attempts == [] then 0
    else
      var past, a := attempts[..|attempts| - 1], attempts[|attempts| - 1];
      Completed(rotateCount, past) + if Completes(rotateCount, past, a) then 1 else 0
  }

  /** A playlist is due once a full window of rotations but one was completed. */
  predicate Due(rotateCount: nat, past: seq<Attempt>)
    requires rotateCount >= 1
    decreases |past|, 1
  {
    Completed(rotateCount, past) >= rotateCount - 1
  }

  /** The chunk could be opened, and so could the playlist if one was due. */
  predicate Completes(rotateCount: nat, past: seq<Attempt>, a: Attempt)
    requires rotateCount >= 1
    decreases |past|, 2
  {
    a.streamOpens && (Due(rotateCount, past) ==> a.playlistOpens)
  }

  lemma AttemptedSequence(st: State, serviceId: int, a: Attempt)
    requires |st.names| >= 3
    ensures var r, names := Attempted(st, serviceId, a), Shifted(st.names, Name(serviceId, a.time));
      && r.sequence == (if Opens(st, a) then st.sequence + 1 else st.sequence)
      && r.playlist == if WritesPlaylist(st) && a.playlistOpens
                       then Some(Playlist(st.sequence, Chunks(names, |st.names| - 2))) else st.playlist
  {
    hide Chunks, Shifted;
  }

  /** The sequence number counts the completed rotations, and a rotation opens its files exactly when it is one. */
  lemma {:induction false} SequenceCounts(rotateCount: nat, serviceId: int, t0: nat, attempts: seq<Attempt>)
    requires rotateCount >= 1
    ensures var st := RunOf(rotateCount, serviceId, t0, attempts);
      && st.sequence == Completed(rotateCount, attempts) && (WritesPlaylist(st) <==> Due(rotateCount, attempts))
      && forall a :: Opens(st, a) <==> Completes(rotateCount, attempts, a)
    decreases |attempts|
  {
    if attempts != [] {
      var past := attempts[..|attempts| - 1];
      SequenceCounts(rotateCount, serviceId, t0, past);
      AttemptedSequence(RunOf(rotateCount, serviceId, t0, past), serviceId, attempts[|attempts| - 1]);
      hide Attempted;
    }
  }

  /** The names of the rotateCount chunks before chunk m, oldest first, opened or not. */
  function WindowBefore(rotateCount: nat, serviceId: int, t0: nat, attempts: seq<Attempt>, m: nat): (w: seq<Name>)
    requires rotateCount <= m <= |attempts| + 1
    ensures |w| == rotateCount
  {
    seq(rotateCount, i requires 0 <= i < rotateCount => Name(serviceId, TimeOf(t0, attempts, m - rotateCount + i)))
  }

  lemma {:induction false} CompletedFew(rotateCount: nat, attempts: seq<Attempt>)
    requires rotateCount >= 1
    ensures Completed(rotateCount, attempts) <= |attempts|
  {
    if attempts != [] {
      CompletedFew(rotateCount, attempts[..|attempts| - 1]);
    }
  }

  /** The playlist last written: by the last rotation for which one was due and could be opened. */
  function LastPlaylist(rotateCount: nat, serviceId: int, t0: nat, attempts: seq<Attempt>): Option<Playlist>
    requires rotateCount >= 1
  {
    if attempts == [] then None
    else
      var past := attempts[..|attempts| - 1];
      CompletedFew(rotateCount, past);
      if Due(rotateCount, past) && attempts[|attempts| - 1].playlistOpens
      then Some(Playlist(Completed(rotateCount, past), WindowBefore(rotateCount, serviceId, t0, past, |attempts|)))
      else LastPlaylist(rotateCount, serviceId, t0, past)
  }

  lemma {:induction false} ChunksBefore(names: seq<Option<Name>>, x: nat, serviceId: int, t0: nat, past: seq<Attempt>)
    requires x < |names| && x <= |past| + 1
    requires forall i :: 1 <= i <= x ==> names[i] == Some(Name(serviceId, TimeOf(t0, past, |past| + 1 - i)))
    ensures Chunks(names, x) == WindowBefore(x, serviceId, t0, past, |past| + 1)
    decreases x
  {
    if x > 0 {
      ChunksBefore(names, x - 1, serviceId, t0, past);
      hide TimeOf;
    }
  }

  /**
   Over runs in which files fail to open in any way, the playlist is the one written by the last rotation for
   which one was due and could be opened: its media sequence is the number of rotations completed before, and
   it lists the last rotateCount chunks before the one begun, also those whose file could not be opened.
   */
  lemma {:induction false} PlaylistIsLast(rotateCount: nat, serviceId: int, t0: nat, attempts: seq<Attempt>)
    requires rotateCount >= 1
    ensures RunOf(rotateCount, serviceId, t0, attempts).playlist
         == LastPlaylist(rotateCount, serviceId, t0, attempts)
    decreases |attempts|
  {
    if attempts != [] {
      var past, a := attempts[..|attempts| - 1], attempts[|attempts| - 1];
      PlaylistIsLast(rotateCount, serviceId, t0, past);
      var st := RunOf(rotateCount, serviceId, t0, past);
      AttemptedSequence(st, serviceId, a);
      SequenceCounts(rotateCount, serviceId, t0, past);
      if Due(rotateCount, past) {
        NamesAre(rotateCount, serviceId, t0, past);
        CompletedFew(rotateCount, past);
        WindowHeld(st.names, rotateCount, serviceId, t0, past, a.time);
      }
      hide RunOf, Attempted, Chunks, Due, Completed, Shifted, WindowBefore, WritesPlaylist;
      RunOfLast(rotateCount, serviceId, t0, attempts);
    }
  }

  lemma WindowHeld(names: seq<Option<Name>>, rotateCount: nat, serviceId: int, t0: nat, past: seq<Attempt>, time: nat)
    requires |names| == rotateCount + 2 && rotateCount <= |past| + 1
    requires exists failed: bool :: Names(names, serviceId, t0, past, failed)
    ensures Chunks(Shifted(names, Name(serviceId, time)), rotateCount)
         == WindowBefore(rotateCount, serviceId, t0, past, |past| + 1)
  {
    hide TimeOf;
    ChunksBefore(Shifted(names, Name(serviceId, time)), rotateCount, serviceId, t0, past);
  }

  /** After a rotation the stream is open exactly when it was completed; else it is closed, or there is none. */
  lemma StreamOpenExactlyWhen(st: State, a: Attempt)
    ensures HandleAfter(st, a) == OPEN <==> Opens(st, a)
    ensures HandleAfter(st, a) == NONE <==> (WritesPlaylist(st) ==> a.playlistOpens) && !a.streamOpens
  {
  }
}

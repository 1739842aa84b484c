/** From the PAT PID to the channels: which section a channel's own table is made from. */
module PatChain {
  import opened Bytes
  import opened Crc32
  import opened Sections
  import opened Demux
  import opened DemuxQueue
  import opened DemuxSound
  import DemuxComplete
  import opened Signing
  import opened Rewriting
  import opened PatRewrite
  import opened PatGlobal
  import EitChain

  // ---------- runs of the program ----------

  /** A packet is taken in, or some channel's table is made, which changes the stored table's header. */
  datatype Event = Arrival(p: Packet, images: seq<Image>, after: Table) | Generation

  const START: Table := Table(State(Idle, []), Repeat(0, MAX_TS_SIZE), Knowledge(-1, true, false))

  function After(run: seq<Event>): Table
  {
    if run == [] then START
    else
      match run[|run| - 1]
      case Arrival(_, _, after) => after
      case Generation => var t := After(run[..|run| - 1]); t.(d := OnlySection(t.d))
  }

  function Packets(run: seq<Event>): seq<Packet>
  {
    if run == [] then [] else Packets(run[..|run| - 1]) + match run[|run| - 1] case Arrival(p, _, _) => [p] case _ => []
  }

  /** The images of the sections the drain loop was given, one after the other. */
  function Images(run: seq<Event>): seq<Image>
  {
    if run == [] then []
    else Images(run[..|run| - 1]) + match run[|run| - 1] case Arrival(_, images, _) => images case _ => []
  }

  ghost predicate Possible(run: seq<Event>)
  {
    run == [] ||
    var past := run[..|run| - 1];
    var t := After(past);
    && Possible(past)
    && match run[|run| - 1]
       case Arrival(p, images, after) => TakenIn(t.(known := t.known.(needsUpdate := true)), p, images, after)
       case Generation => t.known.ok && !t.known.needsUpdate
  }

  // ---------- what is known of the table ----------

  predicate Applicable(d: Image) { d[5] % 2 == 1 }

  function Version(d: Image): int { d[5] / 2 % 32 }

  function LastApplicable(ds: seq<Image>): Option<Image>
  {
    if ds == [] then None
    else if Applicable(ds[|ds| - 1]) then Some(ds[|ds| - 1])
    else LastApplicable(ds[..|ds| - 1])
  }

  lemma {:induction false} LearnedIs(k: Knowledge, ds: seq<Image>)
    ensures LearnAll(k, ds)
         == match LastApplicable(ds) case None => k case Some(d) => Knowledge(Version(d), false, true)
  {
    if ds != [] {
      LearnedIs(k, ds[..|ds| - 1]);
    }
  }

  lemma {:induction false} LastIsApplicable(ds: seq<Image>)
    ensures match LastApplicable(ds) case None => true case Some(d) => Applicable(d)
  {
    if ds != [] {
      LastIsApplicable(ds[..|ds| - 1]);
    }
  }

  lemma {:induction false} LastApplicableAppend(a: seq<Image>, b: seq<Image>)
    ensures LastApplicable(a + b) == if LastApplicable(b).Some? then LastApplicable(b) else LastApplicable(a)
    decreases |b|
  {
    if b == [] {
      assert a + b == a;
    } else {
      hide Applicable;
      assert (a + b)[..|a + b| - 1] == a + b[..|b| - 1];
      LastApplicableAppend(a, b[..|b| - 1]);
    }
  }

  /** The stored version is the one of the last applicable image. */
  predicate KnownFrom(k: Knowledge, ds: seq<Image>)
  {
    match LastApplicable(ds)
    case None => k == START.known
    case Some(d) => k.ok && k.version == Version(d)
  }

  // ---------- what the buffer holds ----------

  /** The section an image begins with. */
  function SectionIn(d: Image): seq<byte>
  {
    d[..Min(FullLength(d), MAX_TS_SIZE)]
  }

  lemma SectionHeld(d: Image, s: seq<byte>)
    requires IsSection(s) && s <= d
    ensures SectionIn(d) == s
  {
    assert s[..3] == d[..3];
    SameLengthField(s, d);
  }

  /** As it was taken over, or as a rewriter has left it. */
  predicate Stored(d: Image, image: Image)
  {
    d == image || d == OnlySection(image)
  }

  lemma StoredAgain(d: Image, image: Image)
    requires Stored(d, image)
    ensures Stored(OnlySection(d), image)
  {
    assert OnlySection(OnlySection(image)) == OnlySection(image);
  }

  /** With no update under way, the buffer holds the last image, and the section in it came in. */
  ghost predicate Source(h: seq<Packet>, t: Table, ds: seq<Image>)
  {
    !t.known.needsUpdate ==>
      && ds != [] && LastApplicable(ds).Some?
      && Stored(t.d, ds[|ds| - 1]) && QueueSound(h, [SectionIn(ds[|ds| - 1])])
  }

  lemma SourceTaken(h: seq<Packet>, before: Table, p: Packet, ds: seq<Image>, images: seq<Image>, after: Table)
    requires before.known.needsUpdate && KnownFrom(before.known, ds) && TakenIn(before, p, images, after)
    requires QueueSound(h, DrainRound(before.st, p).delivered)
    ensures KnownFrom(after.known, ds + images) && Source(h, after, ds + images)
  {
    hide DrainRound, IsSection, DemuxSound.Carried, Applicable, SectionIn, Version;
    LearnedIs(before.known, images);
    LastApplicableAppend(ds, images);
    if images != [] {
      var last, s := images[|images| - 1], DrainRound(before.st, p).delivered[|images| - 1];
      assert (ds + images)[|ds + images| - 1] == last;
      assert s <= last && s in DrainRound(before.st, p).delivered;
      SectionHeld(last, s);
    }
  }

  /** In every run, the version, the buffer and all that waits are explained by what came in. */
  lemma {:induction false} RunSource(run: seq<Event>)
    requires Possible(run)
    ensures var h, t := Packets(run), After(run);
      && PartialSound(h, t.st.partial) && QueueSound(h, t.st.queue)
      && KnownFrom(t.known, Images(run)) && Source(h, t, Images(run))
  {
    hide TakenIn, PartialSound, QueueSound, KnownFrom, Source;
    if run == [] {
      NothingTaken();
    } else {
      var past := run[..|run| - 1];
      RunSource(past);
      match run[|run| - 1]
      case Arrival(p, images, after) => ArrivalSource(Packets(past), After(past), p, Images(past), images, after);
      case Generation => GenerationSource(Packets(past), After(past), Images(past));
    }
  }

  lemma NothingTaken()
    ensures PartialSound([], Idle) && QueueSound([], []) && KnownFrom(START.known, []) && Source([], START, [])
  {
  }

  lemma ArrivalSource(h: seq<Packet>, t: Table, p: Packet, ds: seq<Image>, images: seq<Image>, after: Table)
    requires PartialSound(h, t.st.partial) && QueueSound(h, t.st.queue) && KnownFrom(t.known, ds)
    requires TakenIn(t.(known := t.known.(needsUpdate := true)), p, images, after)
    ensures PartialSound(h + [p], after.st.partial) && QueueSound(h + [p], after.st.queue)
    ensures KnownFrom(after.known, ds + images) && Source(h + [p], after, ds + images)
  {
    hide PartialSound, QueueSound, DrainRound, Source;
    EitChain.RoundSound(h, t.st, p);
    SourceTaken(h + [p], t.(known := t.known.(needsUpdate := true)), p, ds, images, after);
  }

  lemma GenerationSource(h: seq<Packet>, t: Table, ds: seq<Image>)
    requires QueueSound(h, t.st.queue) && Source(h, t, ds)
    ensures h + [] == h && ds + [] == ds && Source(h, t.(d := OnlySection(t.d)), ds)
  {
    if !t.known.needsUpdate {
      StoredAgain(t.d, ds[|ds| - 1]);
    }
  }

  // ---------- what a channel's table lists ----------

  /** The programs a section lists; one too short for a table lists none. */
  function Listed(s: seq<byte>): seq<Program>
  {
    if |s| < 12 then [] else Programs(s, ProgramCount(|s| - 3))
  }

  lemma StoredListed(d: Image, image: Image)
    requires Stored(d, image) && IsSection(SectionIn(image))
    ensures d[5] / 2 == image[5] / 2
    ensures var n := ProgramCount(SectionLength(d));
      8 + 4 * n <= MAX_TS_SIZE && Programs(d, n) == Listed(SectionIn(image))
  {
    hide Accepts;
    var s := SectionIn(image);
    assert s[..3] == image[..3];
    SameLengthField(s, image);
    assert SectionLength(d) == SectionLength(image) == |s| - 3;
    var n := ProgramCount(|s| - 3);
    if |s| >= 12 {
      forall k | 0 <= k < n ensures ProgramAt(d, k) == ProgramAt(s, k) {
        assert d[8..] == image[8..];
        assert ProgramAt(d, k) == d[8..][4 * k..4 * k + 4];
        assert ProgramAt(s, k) == image[8 + 4 * k..12 + 4 * k] == image[8..][4 * k..4 * k + 4];
      }
    }
  }

  /**
   In every run, the table made for a channel lists the chosen programs of the last section the drain loop was
   given, an intact one that came in by consecutive packets.  This is the last applicable section, whose version
   is the stored one, if and only if the last one was applicable.
   */
  lemma ChannelLists(run: seq<Event>, section: seq<byte>, pids: seq<int>, serviceId: int)
    requires Possible(run) && !After(run).known.needsUpdate && Distinct(pids)
    requires var d := After(run).d; Sealed(section, PatBody(d, KeptPrograms(d, pids, serviceId)))
    ensures Images(run) != []
    ensures var last := Images(run)[|Images(run)| - 1];
      && IsSection(SectionIn(last)) && DemuxSound.Carried(Packets(run), SectionIn(last))
      && IsSection(section) && Listed(section) == First(Chosen(Listed(SectionIn(last)), pids, serviceId), MAX_PROGRAMS)
      && section[5] / 2 % 32 == Version(last)
      && (LastApplicable(Images(run)) == Some(last) <==> Applicable(last))
      && (Applicable(last) ==> After(run).known.version == Version(last))
  {
    hide Possible, After, DemuxSound.Carried, PartialSound, Accepts, Sealed, PatBody, KeptPrograms, Chosen, Programs,
      SectionIn, Stored;
    RunSource(run);
    var d, last := After(run).d, Images(run)[|Images(run)| - 1];
    assert SectionIn(last) in [SectionIn(last)];
    LastIsApplicable(Images(run));
    StoredListed(d, last);
    RewrittenLists(section, d, pids, serviceId);
  }

  // ---------- a table made from a section that does not apply yet ----------

  /** A section popped into the buffer. */
  function Over(s: seq<byte>, d: Image): (image: Image)
    requires |s| <= MAX_TS_SIZE
    ensures s <= image
  {
    s + d[|s|..]
  }

  /** A table with one program, and its successor without any, which does not apply yet. */
  ghost predicate TwoTables(a: seq<byte>, b: seq<byte>)
  {
    && |a| == 16 && a[..12] == [0, 0xb0, 13, 0, 1, 0xc1, 0, 0, 0, 1, 0xe1, 0] && Crc(a) == Zeros(32)
    && |b| == 12 && b[..8] == [0, 0xb0, 9, 0, 1, 0xc2, 0, 0] && Crc(b) == Zeros(32)
  }

  lemma TablesExist() returns (a: seq<byte>, b: seq<byte>)
    ensures TwoTables(a, b)
  {
    hide Crc;
    var current: seq<byte>, next: seq<byte> :=
      [0, 0xb0, 13, 0, 1, 0xc1, 0, 0, 0, 1, 0xe1, 0], [0, 0xb0, 9, 0, 1, 0xc2, 0, 0];
    var x := SignatureOf(current);
    var y := SignatureOf(next);
    a, b := current + x, next + y;
  }

  lemma TablesAre(a: seq<byte>, b: seq<byte>)
    requires TwoTables(a, b)
    ensures |a| == 16 && |b| == 12
    ensures IsSection(a) && a[0] == 0 && a[1] == 0xb0 && a[5] == 0xc1
    ensures IsSection(b) && b[0] == 0 && b[5] == 0xc2
    ensures Listed(a) == [[0, 1, 0xe1, 0]] && Listed(b) == []
  {
    hide Crc;
    assert forall i :: 0 <= i < 12 ==> a[i] == a[..12][i];
    assert forall i :: 0 <= i < 8 ==> b[i] == b[..8][i];
    assert ProgramAt(a, 0) == a[..12][8..12];
  }

  function BothTables(a: seq<byte>, b: seq<byte>): (body: seq<byte>)
    requires |a| == 16 && |b| == 12
    ensures |body| == 183
  {
    a + (b + Repeat(0xff, 155))
  }

  lemma BothStart(a: seq<byte>, b: seq<byte>, pid: nat, cc: nat)
    requires TwoTables(a, b)
    ensures Start(BothTables(a, b), pid, cc) == Outcome(Idle, [a, b])
  {
    TablesAre(a, b);
    hide TwoTables, Accepts, FullLength;
    var body, rest, stuffing := BothTables(a, b), b + Repeat(0xff, 155), Repeat(0xff, 155);
    assert body[..16] == a && body[16..] == rest && rest[..12] == b && rest[12..] == stuffing;
    assert rest[0] == b[0];
    assert AfterSection(rest, pid, cc) == Start(rest, pid, cc);
    assert AfterSection(stuffing, pid, cc) == Outcome(Idle, []);
    hide Start, AfterSection;
    DemuxComplete.StartWhole(body, a, pid, cc);
    DemuxComplete.StartWhole(rest, b, pid, cc);
    assert [b] + [] == [b] && [a] + [b] == [a, b];
  }

  lemma TablesBegin(p: Packet, body: seq<byte>)
    requires |body| == 183 && body[1] == 0xb0 && p == [0x47, 0x40, 0, 0x10, 0] + body
    ensures Classify(p) == Begin([], body)
  {
    assert p[1] == 0x40 && p[3] == 0x10 && p[4] == 0 && p[6] == body[1] && p[5..] == body;
    hide Classify;
    OnePacketAction(p);
  }

  /** One packet finishes both. */
  lemma BothFinished(p: Packet, a: seq<byte>, b: seq<byte>)
    requires TwoTables(a, b) && p == [0x47, 0x40, 0, 0x10, 0] + BothTables(a, b)
    ensures Classify(p).Begin? && Feed(Idle, p) == Outcome(Idle, [a, b])
  {
    TablesAre(a, b);
    BothStart(a, b, Pid(p), ContinuityCounter(p));
    assert BothTables(a, b)[1] == a[1];
    hide TwoTables, IsSection, Start, Classify, BothTables, Pid, ContinuityCounter;
    TablesBegin(p, BothTables(a, b));
    assert [] + [a, b] == [a, b];
  }

  lemma BothPushed(queue: seq<seq<byte>>, a: seq<byte>, b: seq<byte>)
    requires |queue| <= 1 && TotalLength(queue) <= 12 && |a| == 16 && |b| == 12
    ensures PushAll(queue, [a, b]) == queue + [a, b]
  {
    FlattenSnoc(queue, a);
    assert Push(queue, a) == queue + [a] && Push(queue + [a], b) == queue + [a] + [b] == queue + [a, b];
    assert [a, b][1..] == [b] && [b][1..] == [];
    assert PushAll(queue + [a], [b]) == Push(queue + [a], b);
  }

  /** The same packet twice: the second time both tables are popped, and then its own. */
  function Popped(a: seq<byte>, b: seq<byte>): (images: seq<Image>)
    requires |a| == 16 && |b| == 12
    ensures |images| == 4
  {
    var first := Over(a, START.d);
    var second := Over(b, first);
    var third := Over(a, second);
    [first, second, third, Over(b, third)]
  }

  function TwoRounds(p: Packet, a: seq<byte>, b: seq<byte>): seq<Event>
    requires |a| == 16 && |b| == 12
  {
    var images := Popped(a, b);
    [Arrival(p, [], Table(State(Idle, [a, b]), START.d, START.known)),
     Arrival(p, images, Table(State(Idle, []), images[3], Knowledge(0, false, true)))]
  }

  lemma FirstRound(p: Packet, a: seq<byte>, b: seq<byte>)
    requires Classify(p).Begin? && Feed(Idle, p) == Outcome(Idle, [a, b])
    requires |a| == 16 && |b| == 12
    ensures TakenIn(START, p, [], Table(State(Idle, [a, b]), START.d, START.known))
  {
    hide Feed, Classify, PushAll;
    BothPushed([], a, b);
    assert [] + [a, b] == [a, b];
  }

  lemma SecondRound(p: Packet, a: seq<byte>, b: seq<byte>)
    requires Classify(p).Begin? && Feed(Idle, p) == Outcome(Idle, [a, b])
    requires |a| == 16 && |b| == 12
    ensures DrainRound(State(Idle, [a, b]), p) == Round(State(Idle, []), [a, b, a, b])
  {
    hide Feed, Classify, PushAll;
    BothPushed([b], a, b);
    assert [b] + [a, b] == [b, a, b];
    DrainedIsQueue(State(Idle, [b, a, b]));
    assert [a] + [b, a, b] == [a, b, a, b];
  }

  lemma PoppedLearned(a: seq<byte>, b: seq<byte>)
    requires TwoTables(a, b)
    ensures var images := Popped(a, b);
      && Hold(images, [a, b, a, b]) && LearnAll(START.known, images) == Knowledge(0, false, true)
      && LastApplicable(images) == Some(images[2]) && SectionIn(images[2]) == a && SectionIn(images[3]) == b
  {
    TablesAre(a, b);
    hide TwoTables, IsSection;
    var images := Popped(a, b);
    SectionHeld(images[2], a);
    SectionHeld(images[3], b);
    assert images[..3][2] == images[2];
    LearnedIs(START.known, images);
  }

  /** The run is possible, and this is what it took in and what it leaves. */
  lemma TwoRoundsPossible(p: Packet, a: seq<byte>, b: seq<byte>)
    requires TwoTables(a, b)
    requires Classify(p).Begin? && Feed(Idle, p) == Outcome(Idle, [a, b])
    ensures var run, images := TwoRounds(p, a, b), Popped(a, b);
      && Possible(run) && Images(run) == images
      && After(run) == Table(State(Idle, []), images[3], Knowledge(0, false, true))
  {
    hide Feed, Classify, Crc, TakenIn, LearnAll;
    var run, images := TwoRounds(p, a, b), Popped(a, b);
    FirstRound(p, a, b);
    SecondTaken(p, a, b);
    assert run[..1] == [run[0]] && [run[0]][..0] == [];
    assert Possible([]) && After([]) == START;
    assert Possible([run[0]]) && Images([run[0]]) == [];
  }

  lemma SecondTaken(p: Packet, a: seq<byte>, b: seq<byte>)
    requires TwoTables(a, b)
    requires Classify(p).Begin? && Feed(Idle, p) == Outcome(Idle, [a, b])
    ensures var images := Popped(a, b);
      TakenIn(Table(State(Idle, [a, b]), START.d, START.known), p, images,
              Table(State(Idle, []), images[3], Knowledge(0, false, true)))
  {
    hide Feed, Classify, Crc, TwoTables, DrainRound, LearnAll;
    TablesAre(a, b);
    SecondRound(p, a, b);
    PoppedLearned(a, b);
  }

  lemma ListedOfOne()
    ensures var listed: seq<Program> := [[0, 1, 0xe1, 0]];
      Chosen(listed, [0x100], 0) == listed
    ensures First(Chosen([], [0x100], 0), MAX_PROGRAMS) == []
  {
    var e: Program := [0, 1, 0xe1, 0];
    assert NetworkPid(e) == 0x100 && PatRewrite.Carried(e, [0x100], 0);
    assert Chosen([], [0x100], 0) + [e] == [e];
  }

  /**
   A run after which a channel's table lists nothing, although the last applicable section lists its program: a
   section that does not apply yet came behind it in one packet, and the packet was repeated.
   */
  lemma NotYetApplicable() returns (run: seq<Event>, a: seq<byte>)
    ensures Possible(run) && After(run).known == Knowledge(0, false, true)
    ensures LastApplicable(Images(run)).Some? && SectionIn(LastApplicable(Images(run)).value) == a
    ensures Listed(a) == [[0, 1, 0xe1, 0]] && Chosen(Listed(a), [0x100], 0) == Listed(a)
    ensures forall section :: Sealed(section, PatBody(After(run).d, KeptPrograms(After(run).d, [0x100], 0))) ==>
      Listed(section) == []
  {
    var b;
    a, b := TablesExist();
    var p: Packet := [0x47, 0x40, 0, 0x10, 0] + BothTables(a, b);
    run := TwoRounds(p, a, b);
    BothFinished(p, a, b);
    TwoRoundsPossible(p, a, b);
    PoppedLearned(a, b);
    TablesAre(a, b);
    ListedOfOne();
    OnePid();
    var images := Popped(a, b);
    assert images[|images| - 1] == images[3];
    hide *;
    forall section | Sealed(section, PatBody(After(run).d, KeptPrograms(After(run).d, [0x100], 0)))
      ensures Listed(section) == []
    {
      ChannelLists(run, section, [0x100], 0);
    }
  }

  lemma OnePid()
    ensures PatRewrite.Distinct([0x100])
  {
  }
}

/**
 Completeness of reassembly.  Any list of intact sections, packed into packets as ISO/IEC
 13818-1 section 2.4.4 allows, comes out unchanged, once each and in order.
 */
module DemuxComplete {
  import opened Bytes
  import opened Sections
  import opened Demux

  // ---------- packing ----------

  /** A section cut by the end of a packet: how many of its bytes are there, and the bytes it lacks. */
  datatype Cut = Cut(have: nat, rest: seq<byte>)

  const NO_CUT: Cut := Cut(0, [])

  /** Sections laid out in one packet: those that end in it, the one that is cut, those that follow. */
  datatype Filled = Filled(done: seq<seq<byte>>, cut: Cut, left: seq<seq<byte>>)

  /** What is still lacking after n more bytes. */
  function After(w: Cut, n: nat): Cut
  {
    if n < |w.rest| then Cut(w.have + n, w.rest[n..]) else NO_CUT
  }

  predicate IsStuffing(bytes: seq<byte>)
  {
    forall b :: b in bytes ==> b == 0xff
  }

  /**
   How the sections ss fill the bytes after the pointer field: back to back, the last one cut
   by the end of the packet or followed by stuffing.  None if body is not such a layout.
   */
  function Fill(body: seq<byte>, ss: seq<seq<byte>>): (r: Option<Filled>)
    decreases |ss|
  {
    if body == [] || ss == [] || |ss[0]| < 3 then None
    else
      var s := ss[0];
      if |body| < |s| then
        if body == s[..|body|] then Some(Filled([], Cut(|body|, s[|body|..]), ss[1..])) else None
      else if body[..|s|] != s then None
      else
        var after := body[|s|..];
        if after == [] || after[0] == 0xff then
          if IsStuffing(after) then Some(Filled([s], NO_CUT, ss[1..])) else None
        else
          var more := Fill(after, ss[1..]);
          if more.None? then None
          else Some(Filled([s] + more.value.done, more.value.cut, more.value.left))
  }

  /**
   The packets ps of one PID, counters from cc on, carry first what the cut section w lacks, then
   exactly the sections ss.  A packet that continues a section completes its three header bytes
   at least: the program gives up on a header spread further.
   */
  ghost predicate Carries(ps: seq<Packet>, pid: nat, cc: nat, w: Cut, ss: seq<seq<byte>>)
    decreases |ps|
  {
    if ps == [] then w.rest == [] && ss == []
    else
      && Pid(ps[0]) == pid && ContinuityCounter(ps[0]) == cc
      && match Classify(ps[0])
         case Skip => false
         case Drop => false
         case Continue(payload) =>
           && w.rest != [] && w.have + |payload| >= 3
           && Continues(payload, w.rest)
           && Carries(ps[1..], pid, (cc + 1) % 16, After(w, |payload|), ss)
         case Begin(tail, body) =>
           && tail == w.rest
           && Fill(body, ss).Some?
           && Carries(ps[1..], pid, (cc + 1) % 16, Fill(body, ss).value.cut, Fill(body, ss).value.left)
  }

  /** The payload goes on with the bytes rest, and only stuffing follows their end. */
  predicate Continues(payload: seq<byte>, rest: seq<byte>)
  {
    if |payload| <= |rest| then payload == rest[..|payload|]
    else payload[..|rest|] == rest && IsStuffing(payload[|rest|..])
  }

  ghost predicate AllSections(ss: seq<seq<byte>>)
  {
    forall s :: s in ss ==> IsSection(s)
  }

  // ---------- one packet ----------

  lemma StartCut(body: seq<byte>, s: seq<byte>, pid: nat, cc: nat)
    requires IsSection(s) && |body| < |s| && body == s[..|body|]
    ensures Start(body, pid, cc) == Outcome(Collecting(body, pid, cc), [])
    ensures body + s[|body|..] == s
  {
    if |body| >= 3 {
      assert body[..3] == s[..3];
      SameLengthField(body, s);
    }
  }

  lemma StartWhole(body: seq<byte>, s: seq<byte>, pid: nat, cc: nat)
    requires IsSection(s) && |s| <= |body| && body[..|s|] == s
    ensures var next := AfterSection(body[|s|..], pid, cc);
            Start(body, pid, cc) == Outcome(next.partial, [s] + next.done)
  {
    assert body[..3] == body[..|s|][..3];
    SameLengthField(body, s);
  }

  /** r describes how out came about from the sections ss. */
  ghost predicate FilledAs(out: Outcome, r: Filled, ss: seq<seq<byte>>, pid: nat, cc: nat)
  {
    && out.done == r.done
    && (r.cut.rest == [] ==> out.partial == Idle && ss == r.done + r.left)
    && (r.cut.rest != [] ==>
          && out.partial.Collecting? && out.partial.pid == pid && out.partial.cc == cc
          && out.partial.data != [] && |out.partial.data| == r.cut.have && IsSection(out.partial.data + r.cut.rest)
          && ss == r.done + ([out.partial.data + r.cut.rest] + r.left))
  }

  lemma FilledCons(s: seq<byte>, next: Outcome, r: Filled, ss: seq<seq<byte>>, pid: nat, cc: nat)
    requires ss != [] && ss[0] == s && FilledAs(next, r, ss[1..], pid, cc)
    ensures FilledAs(Outcome(next.partial, [s] + next.done), Filled([s] + r.done, r.cut, r.left), ss, pid, cc)
  {
    assert ss == [s] + ss[1..];
    if r.cut.rest == [] {
      assert [s] + (r.done + r.left) == ([s] + r.done) + r.left;
    } else {
      var tail := [next.partial.data + r.cut.rest] + r.left;
      assert [s] + (r.done + tail) == ([s] + r.done) + tail;
    }
  }

  lemma {:induction false} StartFilled(body: seq<byte>, ss: seq<seq<byte>>, pid: nat, cc: nat)
    requires Fill(body, ss).Some? && AllSections(ss)
    ensures FilledAs(Start(body, pid, cc), Fill(body, ss).value, ss, pid, cc)
    decreases |ss|
  {
    var s := ss[0];
    if |body| < |s| {
      StartCut(body, s, pid, cc);
      assert ss == [] + ([s] + ss[1..]);
    } else {
      StartWhole(body, s, pid, cc);
      var after := body[|s|..];
      if after == [] || after[0] == 0xff {
        FilledCons(s, Outcome(Idle, []), Filled([], NO_CUT, ss[1..]), ss, pid, cc);
      } else {
        StartFilled(after, ss[1..], pid, cc);
        FilledCons(s, Start(after, pid, cc), Fill(after, ss[1..]).value, ss, pid, cc);
      }
    }
  }

  /** The section being collected is the cut section w. */
  ghost predicate Lacks(partial: Partial, w: Cut, pid: nat, cc: nat)
  {
    w.rest != [] ==>
      && partial.Collecting? && partial.data != [] && |partial.data| == w.have
      && partial.pid == pid && (partial.cc + 1) % 16 == cc
      && IsSection(partial.data + w.rest)
  }

  ghost function Finishing(partial: Partial, w: Cut): seq<seq<byte>>
    requires w.rest != [] ==> partial.Collecting?
  {
    if w.rest == [] then [] else [partial.data + w.rest]
  }

  lemma ExtendCarried(partial: Partial, w: Cut, payload: seq<byte>, pid: nat, cc: nat)
    requires w.rest != [] && Lacks(partial, w, pid, cc)
    requires w.have + |payload| >= 3
    requires if |payload| <= |w.rest| then payload == w.rest[..|payload|] else payload[..|w.rest|] == w.rest
    ensures var out := Extend(partial, payload, pid, cc);
            if |payload| >= |w.rest| then
              out.done == [partial.data + w.rest] && out.partial == Idle
            else
              && out.done == [] && Lacks(out.partial, After(w, |payload|), pid, (cc + 1) % 16)
              && out.partial.data + w.rest[|payload|..] == partial.data + w.rest
  {
    ExtendedBy(partial.data, w.rest, payload);
    SameLengthField(partial.data + payload, partial.data + w.rest);
    hide FullLength, Accepts;
  }

  /** The collected bytes with the payload and with the bytes that are lacking. */
  lemma ExtendedBy(data: seq<byte>, rest: seq<byte>, payload: seq<byte>)
    requires |data| + |payload| >= 3 && |data| + |rest| >= 3
    requires if |payload| <= |rest| then payload == rest[..|payload|] else payload[..|rest|] == rest
    ensures var s, total := data + rest, data + payload;
      && total[..3] == s[..3] && total[..|total|] == total
      && (|payload| >= |rest| ==> total[..|s|] == s)
      && (|payload| < |rest| ==> total + rest[|payload|..] == s)
  {
  }

  /** A section whose header is not complete after its second packet is given up. */
  lemma SpreadHeaderGivenUp(partial: Partial, w: Cut, payload: seq<byte>, pid: nat, cc: nat)
    requires w.rest != [] && Lacks(partial, w, pid, cc)
    requires if |payload| <= |w.rest| then payload == w.rest[..|payload|] else payload[..|w.rest|] == w.rest
    ensures Extend(partial, payload, pid, cc) == Outcome(Idle, []) <==> w.have + |payload| < 3
  {
    if w.have + |payload| >= 3 {
      ExtendCarried(partial, w, payload, pid, cc);
    }
  }

  /** One step of the invariant: what was expected is what came out and what is still expected. */
  ghost predicate Step(partial: Partial, w: Cut, ss: seq<seq<byte>>, out: Outcome,
                       w': Cut, ss': seq<seq<byte>>, pid: nat, cc: nat)
  {
    && Lacks(partial, w, pid, cc) && Lacks(out.partial, w', pid, (cc + 1) % 16)
    && AllSections(ss')
    && Finishing(partial, w) + ss == out.done + (Finishing(out.partial, w') + ss')
  }

  lemma ContinueStep(partial: Partial, w: Cut, payload: seq<byte>, ss: seq<seq<byte>>, pid: nat, cc: nat)
    requires w.rest != [] && Lacks(partial, w, pid, cc) && AllSections(ss) && w.have + |payload| >= 3
    requires Continues(payload, w.rest)
    ensures Step(partial, w, ss, Extend(partial, payload, pid, cc), After(w, |payload|), ss, pid, cc)
  {
    ExtendCarried(partial, w, payload, pid, cc);
    var out := Extend(partial, payload, pid, cc);
    if |payload| >= |w.rest| {
      assert Finishing(out.partial, NO_CUT) + ss == ss;
    } else {
      assert [] + (Finishing(out.partial, After(w, |payload|)) + ss) == Finishing(partial, w) + ss;
    }
  }

  lemma BeginStep(partial: Partial, w: Cut, body: seq<byte>, ss: seq<seq<byte>>, pid: nat, cc: nat)
    requires Lacks(partial, w, pid, cc) && AllSections(ss) && Fill(body, ss).Some?
    ensures var r := Fill(body, ss).value;
            Step(partial, w, ss, Act(partial, Begin(w.rest, body), pid, cc), r.cut, r.left, pid, cc)
  {
    hide Fill, Start, Extend;
    var r, out := Fill(body, ss).value, Start(body, pid, cc);
    StartFilled(body, ss, pid, cc);
    var before := Finishing(partial, w);
    if w.rest != [] {
      ExtendCarried(partial, w, w.rest, pid, cc);
    }
    assert ss == r.done + (Finishing(out.partial, r.cut) + r.left);
    assert before + ss == (before + r.done) + (Finishing(out.partial, r.cut) + r.left);
  }

  lemma FeedCarried(partial: Partial, ps: seq<Packet>, pid: nat, cc: nat, w: Cut, ss: seq<seq<byte>>)
    returns (w': Cut, ss': seq<seq<byte>>)
    requires ps != [] && Carries(ps, pid, cc, w, ss) && Lacks(partial, w, pid, cc) && AllSections(ss)
    ensures Carries(ps[1..], pid, (cc + 1) % 16, w', ss')
    ensures Step(partial, w, ss, Feed(partial, ps[0]), w', ss', pid, cc)
  {
    match Classify(ps[0])
    case Continue(payload) =>
      ContinueStep(partial, w, payload, ss, pid, cc);
      w', ss' := After(w, |payload|), ss;
    case Begin(tail, body) =>
      BeginStep(partial, w, body, ss, pid, cc);
      w', ss' := Fill(body, ss).value.cut, Fill(body, ss).value.left;
  }

  // ---------- all packets ----------

  ghost function FeedAll(partial: Partial, ps: seq<Packet>): Outcome
  {
    if ps == [] then Outcome(partial, [])
    else
      var before := FeedAll(partial, ps[..|ps| - 1]);
      var last := Feed(before.partial, ps[|ps| - 1]);
      Outcome(last.partial, before.done + last.done)
  }

  lemma {:induction false} FeedAllCons(partial: Partial, ps: seq<Packet>)
    requires ps != []
    ensures FeedAll(partial, ps).partial == FeedAll(Feed(partial, ps[0]).partial, ps[1..]).partial
    ensures FeedAll(partial, ps).done
         == Feed(partial, ps[0]).done + FeedAll(Feed(partial, ps[0]).partial, ps[1..]).done
  {
    hide Feed;
    var k := |ps| - 1;
    if k == 0 {
      FeedAllOne(partial, ps);
    } else {
      FeedAllCons(partial, ps[..k]);
      assert ps[..k][0] == ps[0];
      assert ps[..k][1..] == ps[1..][..k - 1];
    }
  }

  lemma FeedAllOne(partial: Partial, ps: seq<Packet>)
    requires |ps| == 1
    ensures FeedAll(partial, ps) == Feed(partial, ps[0])
    ensures FeedAll(Feed(partial, ps[0]).partial, ps[1..]) == Outcome(Feed(partial, ps[0]).partial, [])
  {
    assert ps[..0] == [] && ps[1..] == [];
  }

  /**
   Reassembly completeness: the sections the program validates over the packets are exactly the
   one being finished, if any, and then ss, unchanged and in order.
   */
  lemma {:induction false} CarriedIsFinished(partial: Partial, ps: seq<Packet>, pid: nat, cc: nat, w: Cut,
    ss: seq<seq<byte>>)
    requires Carries(ps, pid, cc, w, ss) && Lacks(partial, w, pid, cc) && AllSections(ss)
    ensures FeedAll(partial, ps).done == Finishing(partial, w) + ss
    decreases |ps|
  {
    if ps != [] {
      var w', ss' := FeedCarried(partial, ps, pid, cc, w, ss);
      FeedAllCons(partial, ps);
      CarriedIsFinished(Feed(partial, ps[0]).partial, ps[1..], pid, (cc + 1) % 16, w', ss');
    }
  }

  // ---------- joining a stream in its middle ----------

  /** The first packet begins the sections ss, behind the end of whatever section came before. */
  ghost predicate CarriesFrom(ps: seq<Packet>, pid: nat, cc: nat, ss: seq<seq<byte>>)
  {
    && ps != [] && Pid(ps[0]) == pid && ContinuityCounter(ps[0]) == cc
    && match Classify(ps[0])
       case Begin(_, body) =>
         && Fill(body, ss).Some?
         && Carries(ps[1..], pid, (cc + 1) % 16, Fill(body, ss).value.cut, Fill(body, ss).value.left)
       case _ => false
  }

  /** The sections of a first packet, with what it leaves collected. */
  lemma Begun(body: seq<byte>, ss: seq<seq<byte>>, pid: nat, cc: nat)
    requires Fill(body, ss).Some? && AllSections(ss)
    ensures var r, out := Fill(body, ss).value, Start(body, pid, cc);
      && Lacks(out.partial, r.cut, pid, (cc + 1) % 16) && AllSections(r.left)
      && ss == out.done + (Finishing(out.partial, r.cut) + r.left)
  {
    hide Fill, Start;
    StartFilled(body, ss, pid, cc);
    var r, out := Fill(body, ss).value, Start(body, pid, cc);
    if r.cut.rest == [] {
      assert Finishing(out.partial, r.cut) + r.left == r.left;
    }
  }

  /** Whatever was being collected, and whatever its end, the sections that begin are finished behind it. */
  lemma BegunAreFinished(partial: Partial, ps: seq<Packet>, pid: nat, cc: nat, ss: seq<seq<byte>>)
    requires CarriesFrom(ps, pid, cc, ss) && AllSections(ss)
    ensures var tail := Classify(ps[0]).tail;
      FeedAll(partial, ps).done == (if tail == [] then [] else Extend(partial, tail, pid, cc).done) + ss
  {
    var tail, body := Classify(ps[0]).tail, Classify(ps[0]).body;
    var r, out := Fill(body, ss).value, Start(body, pid, cc);
    var before := if tail == [] then [] else Extend(partial, tail, pid, cc).done;
    assert Feed(partial, ps[0]) == Outcome(out.partial, before + out.done);
    hide *;
    Begun(body, ss, pid, cc);
    FeedAllCons(partial, ps);
    CarriedIsFinished(out.partial, ps[1..], pid, (cc + 1) % 16, r.cut, r.left);
    Regrouped(before, out.done, Finishing(out.partial, r.cut) + r.left);
  }

  /** No packet in which sections begin. */
  ghost predicate NoneBegins(ps: seq<Packet>)
  {
    forall p :: p in ps ==> !Classify(p).Begin?
  }

  /**
   A reassembler that joins the stream anywhere misses what began before: it ignores the packets in which
   nothing begins, and from the first one with a beginning on it finishes every section.
   */
  lemma {:induction false} JoinedAnywhere(missed: seq<Packet>, ps: seq<Packet>, pid: nat, cc: nat, ss: seq<seq<byte>>)
    requires NoneBegins(missed) && CarriesFrom(ps, pid, cc, ss) && AllSections(ss)
    ensures FeedAll(Idle, missed + ps).done == ss
    decreases |missed|
  {
    if missed == [] {
      BegunAreFinished(Idle, ps, pid, cc, ss);
      assert [] + ps == ps;
    } else {
      var all := missed + ps;
      assert all[1..] == missed[1..] + ps && all[0] == missed[0] && missed[0] in missed;
      FeedAllCons(Idle, all);
      IdleIgnores(missed[0]);
      JoinedAnywhere(missed[1..], ps, pid, cc, ss);
    }
  }

  lemma IdleIgnores(p: Packet)
    requires !Classify(p).Begin?
    ensures Feed(Idle, p) == Outcome(Idle, [])
  {
  }
}

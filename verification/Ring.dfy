/**
 The descrambling pipeline: the producer, the descrambler and the sender share one ring of packets.
 The three threads are steps of one state machine; the descrambler's decryption, done without the
 lock, is a step for each packet and stage, so that every interleaving is a list of events.
 */
module Ring {
  import opened Bytes
  import opened Sections

  type Key = seq<byte>

  /** Decryption is only known to keep the payload's length. */
  type Cipher = f: (Key, seq<byte>) -> seq<byte> | forall k, s :: |f(k, s)| == |s| witness (k, s) => s

  datatype Config = Config(size: nat, batch: nat, decrypt: Cipher)

  datatype Parity = Even | Odd

  datatype Keys = Keys(even: Option<Key>, odd: Option<Key>) {
    function Of(p: Parity): Option<Key> { if p.Even? then even else odd }
  }

  /** A packet held for decryption: its slot and where its payload starts. */
  datatype Held = Held(slot: nat, offset: nat)

  datatype Stage = Decrypt | Clear

  /** One piece of work of the unlocked phase. */
  datatype Op = Op(stage: Stage, parity: Parity, held: Held)

  datatype Phase = Collecting | Working(done: nat)

  datatype State = State(
    slots: seq<Packet>,
    writeIdx: nat, decsaIdx: nat, sendIdx: nat,
    toDescramble: nat, toSend: nat,
    scrambled: nat, nscrambled: nat,
    even: seq<Held>, odd: seq<Held>,
    keys: Keys, caIdx: nat,
    phase: Phase,
    pending: Keys, channelCa: nat)
  {
    function Of(p: Parity): seq<Held> { if p.Even? then even else odd }
  }

  datatype Event =
    | Write(packet: Packet)
    | NewKey(parity: Parity, key: Key)
    | NewCa(index: nat)
    | Take
    | Work
    | Release
    | Send

  // ---------- one packet ----------

  /** Where the payload of a packet starts; 0 when it has none that can be descrambled. */
  function PayloadOffset(p: Packet): (o: nat)
    ensures o == 0 || 4 <= o <= 187
  {
    if p[0] != 0x47 then 0
    else if p[3] / 16 % 2 == 0 then 0
    else if p[3] / 32 % 2 == 0 then 4
    else if p[4] > 182 then 0
    else 4 + 1 + p[4]
  }

  /** The parity of the key a packet needs; None counts as not scrambled. */
  function ScrambledWith(p: Packet): Option<Parity>
  {
    if PayloadOffset(p) == 0 then None
    else if p[3] / 64 == 2 then Some(Even)
    else if p[3] / 64 == 3 then Some(Odd)
    else None
  }

  function DecryptPayload(decrypt: Cipher, key: Key, p: Packet, offset: nat): Packet
  {
    if offset <= 188 then p[..offset] + decrypt(key, p[offset..]) else p
  }

  /** The scrambling control bits set to zero. */
  function ClearControl(p: Packet): Packet
  {
    p[3 := p[3] % 64]
  }

  // ---------- the unlocked work ----------

  function Apply(c: Config, keys: Keys, op: Op, p: Packet): Packet
  {
    if op.stage.Clear? then ClearControl(p)
    else if keys.Of(op.parity).None? then p
    else DecryptPayload(c.decrypt, keys.Of(op.parity).value, p, op.held.offset)
  }

  function Ops(stage: Stage, parity: Parity, batch: seq<Held>): (ops: seq<Op>)
    ensures |ops| == |batch| && forall i :: 0 <= i < |ops| ==> ops[i] == Op(stage, parity, batch[i])
  {
    seq(|batch|, i requires 0 <= i < |batch| => Op(stage, parity, batch[i]))
  }

  /** Everything to do between the two critical sections of the descrambler, in order. */
  function Program(s: State): (ops: seq<Op>)
  {
    Ops(Decrypt, Even, s.even) + Ops(Clear, Even, s.even) + Ops(Decrypt, Odd, s.odd) + Ops(Clear, Odd, s.odd)
  }

  // ---------- steps ----------

  function Wrap(i: nat, size: nat): nat { if i == size then 0 else i }

  function Initial(c: Config, slots: seq<Packet>, pending: Keys, channelCa: nat): State
  {
    State(slots, 0, 0, 0, 0, 0, 0, 0, [], [], Keys(None, None), 0, Collecting, pending, channelCa)
  }

  /** Packets written and not yet sent. */
  function Outstanding(s: State): nat
  {
    s.toDescramble + s.scrambled + s.nscrambled + s.toSend
  }

  predicate Shaped(c: Config, s: State)
  {
    && |s.slots| == c.size
    && (Outstanding(s) < c.size ==> s.writeIdx < c.size)
    && (s.toDescramble > 0 ==> s.decsaIdx < c.size)
    && (s.toSend > 0 ==> s.sendIdx < c.size)
    && forall op :: op in Program(s) ==> op.held.slot < c.size
  }

  predicate Enabled(c: Config, s: State, e: Event)
  {
    Shaped(c, s) &&
    match e
    case Write(_) => Outstanding(s) < c.size
    case NewKey(_, _) => true
    case NewCa(_) => true
    case Take => s.phase.Collecting? && s.toDescramble > 0
    case Work => s.phase.Working? && s.phase.done < |Program(s)|
    case Release => s.phase.Working? && s.phase.done == |Program(s)|
    case Send => s.toSend > 0
  }

  /** Which batch the next packet goes to: its parity's, when there is a CA index and a first key. */
  function BatchFor(s: State, p: Packet): Option<Parity>
  {
    var parity := ScrambledWith(p);
    if parity.Some? && s.caIdx != 0 && s.keys.Of(parity.value).Some? then parity else None
  }

  /** One more packet counted, and held in a batch if it can be decrypted. */
  function Sorted(s: State, p: Packet): State
  {
    var held := [Held(s.decsaIdx, PayloadOffset(p))];
    var batch := BatchFor(s, p);
    s.(scrambled := if ScrambledWith(p).Some? then s.scrambled + 1 else s.scrambled,
       nscrambled := if ScrambledWith(p).Some? then s.nscrambled else s.nscrambled + 1,
       even := if batch == Some(Even) then s.even + held else s.even,
       odd := if batch == Some(Odd) then s.odd + held else s.odd)
  }

  function Collect(c: Config, s: State): State
    requires Enabled(c, s, Take)
  {
    Sorted(s, s.slots[s.decsaIdx]).(decsaIdx := Wrap(s.decsaIdx + 1, c.size), toDescramble := s.toDescramble - 1)
  }

  /** Load a waiting even key if there is none yet or only the odd one is in use. */
  function LoadEven(s: State): State
  {
    if ((s.odd != [] && s.even == []) || s.keys.even.None?) && s.pending.even.Some?
    then s.(keys := s.keys.(even := s.pending.even), pending := s.pending.(even := None))
    else s
  }

  function LoadOdd(s: State): State
  {
    if ((s.even != [] && s.odd == []) || s.keys.odd.None?) && s.pending.odd.Some?
    then s.(keys := s.keys.(odd := s.pending.odd), pending := s.pending.(odd := None))
    else s
  }

  predicate Full(c: Config, s: State)
  {
    s.scrambled == c.batch || s.nscrambled == c.batch
  }

  /** The producer's step, whether or not there is room. */
  function Put(c: Config, s: State, p: Packet): State
    requires s.writeIdx < |s.slots|
  {
    s.(slots := s.slots[s.writeIdx := p], writeIdx := Wrap(s.writeIdx + 1, c.size),
       toDescramble := s.toDescramble + 1)
  }

  function Next(c: Config, s: State, e: Event): State
    requires Enabled(c, s, e)
  {
    match e
    case Write(p) =>
      Put(c, s, p)
    case NewKey(parity, key) =>
      s.(pending := if parity.Even? then s.pending.(even := Some(key)) else s.pending.(odd := Some(key)))
    case NewCa(index) =>
      s.(channelCa := index)
    case Take =>
      var t := Collect(c, s);
      if Full(c, t) then LoadOdd(LoadEven(t)).(phase := Working(0)) else t
    case Work =>
      var op := Program(s)[s.phase.done];
      assert op in Program(s);
      s.(slots := s.slots[op.held.slot := Apply(c, s.keys, op, s.slots[op.held.slot])],
        phase := Working(s.phase.done + 1))
    case Release =>
      s.(toSend := s.toSend + s.scrambled + s.nscrambled, scrambled := 0, nscrambled := 0,
         even := [], odd := [], caIdx := s.channelCa, phase := Collecting)
    case Send =>
      s.(sendIdx := Wrap(s.sendIdx + 1, c.size), toSend := s.toSend - 1)
  }

  // ---------- what has happened ----------

  /** How a packet was batched: for which parity, under which key. */
  datatype Use = Use(parity: Parity, key: Key)

  /** Written packets, what was decided for each one taken, how many were released, what was sent. */
  datatype History = History(written: seq<Packet>, uses: seq<Option<Use>>, released: nat, sent: seq<Packet>)

  const NOTHING: History := History([], [], 0, [])

  function UseOf(s: State, p: Packet): Option<Use>
  {
    var batch := BatchFor(s, p);
    if batch.Some? then Some(Use(batch.value, s.keys.Of(batch.value).value)) else None
  }

  function Record(c: Config, s: State, h: History, e: Event): History
    requires Enabled(c, s, e)
  {
    match e
    case Write(p) => h.(written := h.written + [p])
    case Take => h.(uses := h.uses + [UseOf(s, s.slots[s.decsaIdx])])
    case Release => h.(released := |h.uses|)
    case Send => h.(sent := h.sent + [s.slots[s.sendIdx]])
    case _ => h
  }

  datatype Run = Run(state: State, history: History)

  /** The state and history after the events; None if one of them was not possible. */
  function After(c: Config, s0: State, events: seq<Event>): Option<Run>
  {
    if events == [] then Some(Run(s0, NOTHING)) else
      var e := events[|events| - 1];
      var before := After(c, s0, events[..|events| - 1]);
      if before.Some? && Enabled(c, before.value.state, e)
      then Some(Run(Next(c, before.value.state, e), Record(c, before.value.state, before.value.history, e)))
      else None
  }

  /** What a packet must look like when it is sent: decrypted once with the key it was batched under. */
  function Final(c: Config, p: Packet, use: Option<Use>): Packet
  {
    if use.None? then p
    else ClearControl(DecryptPayload(c.decrypt, use.value.key, p, PayloadOffset(p)))
  }
}

/** How a transport stream packet is written, field by field (ISO/IEC 13818-1 section 2.4.3.2). */
module Layout {
  import opened Bytes
  import opened Sections

  datatype RawFields = Fields(error: bool, start: bool, priority: bool, pid: nat, scrambling: nat, control: nat,
    cc: nat, adaptation: seq<byte>, payload: seq<byte>)
  {
    /** Control 1 and the reserved 0 have a payload only, 2 an adaptation field only, 3 both. */
    predicate Valid()
    {
      && pid < 8192 && scrambling < 4 && control < 4 && cc < 16
      && if control < 2 then adaptation == [] && |payload| == 184
         else |adaptation| + |payload| == 183 && (control == 2 <==> payload == [])
    }

    function HasPayload(): bool { control != 2 }
  }

  /** The fields of a packet that can be written. */
  type Fields = f: RawFields | f.Valid() witness Fields(false, false, false, 0, 0, 1, 0, [], Repeat(0, 184))

  function Flag(b: bool): nat { if b then 1 else 0 }

  function FixedHeader(f: Fields): (h: seq<byte>)
    ensures |h| == 4
  {
    [0x47, Flag(f.error) * 128 + Flag(f.start) * 64 + Flag(f.priority) * 32 + f.pid / 256, f.pid % 256,
     f.scrambling * 64 + f.control * 16 + f.cc]
  }

  /** The adaptation field behind its length. */
  function AdaptationField(f: Fields): seq<byte>
  {
    if f.control < 2 then [] else [|f.adaptation|] + f.adaptation
  }

  function Packed(f: Fields): Packet
  {
    FixedHeader(f) + AdaptationField(f) + f.payload
  }

  function PackedAll(fs: seq<Fields>): (ps: seq<Packet>)
    ensures |ps| == |fs| && forall i :: 0 <= i < |fs| ==> ps[i] == Packed(fs[i])
  {
    seq(|fs|, i requires 0 <= i < |fs| => Packed(fs[i]))
  }

  lemma PackedAllSnoc(fs: seq<Fields>)
    requires fs != []
    ensures PackedAll(fs) == PackedAll(fs[..|fs| - 1]) + [Packed(fs[|fs| - 1])]
  {
    hide Packed;
  }

  /** Where the parts of a written packet are. */
  lemma WrittenParts(f: Fields)
    ensures var p, o := Packed(f), 188 - |f.payload|;
      && p[0] == 0x47 && p[1] == Flag(f.error) * 128 + Flag(f.start) * 64 + Flag(f.priority) * 32 + f.pid / 256
      && p[2] == f.pid % 256 && p[3] == f.scrambling * 64 + f.control * 16 + f.cc
      && (f.control >= 2 ==> p[4] == |f.adaptation| && o == 5 + |f.adaptation|) && (f.control < 2 ==> o == 4)
      && p[..o] == FixedHeader(f) + AdaptationField(f) && p[o..] == f.payload
  {
    var h, a := FixedHeader(f), AdaptationField(f);
    assert Packed(f) == h + (a + f.payload);
  }

  lemma SameAdaptation(f: Fields, g: Fields)
    requires f.control == g.control && f.adaptation == g.adaptation
    ensures AdaptationField(f) == AdaptationField(g)
  {
  }

  /** Every field is read as it was written. */
  lemma FieldsRead(f: Fields)
    ensures var p := Packed(f);
      && Pusi(p) == f.start && Pid(p) == f.pid && Afc(p) == f.control && ContinuityCounter(p) == f.cc
      && p[3] / 64 == f.scrambling && p[3] % 64 == f.control * 16 + f.cc
  {
    WrittenParts(f);
    hide Packed, FixedHeader, AdaptationField;
    var high := f.pid / 256;
    SecondByte(f.error, f.start, f.priority, high);
    FourthByte(f.scrambling, f.control, f.cc);
  }

  lemma SecondByte(error: bool, start: bool, priority: bool, high: nat)
    requires high < 32
    ensures var b := Flag(error) * 128 + Flag(start) * 64 + Flag(priority) * 32 + high;
      b < 256 && b / 64 % 2 == Flag(start) && b % 32 == high
  {
  }

  lemma FourthByte(scrambling: nat, control: nat, cc: nat)
    requires scrambling < 4 && control < 4 && cc < 16
    ensures var b := scrambling * 64 + control * 16 + cc;
      && b < 256 && b / 16 % 4 == control && b % 16 == cc && b / 64 == scrambling && b % 64 == control * 16 + cc
      && (b / 16 % 2 == 1 <==> control % 2 == 1) && (b / 32 % 2 == 1 <==> control >= 2)
  {
  }

  /** The bytes leave no room for the adaptation field they announce and a payload. */
  predicate Overruns(p: Packet)
  {
    (Afc(p) == 3 && p[4] >= 183) || (Afc(p) == 2 && p[4] != 183)
  }

  /** Every packet with a sync byte is written from some fields, but for those whose adaptation field does not fit. */
  lemma EveryPacketWritten(p: Packet) returns (f: Fields)
    requires p[0] == 0x47 && !Overruns(p)
    ensures Packed(f) == p
  {
    var o := if Afc(p) < 2 then 4 else 5 + p[4] as nat;
    var adaptation := if Afc(p) < 2 then [] else p[5..o];
    PidParts(p[1], p[2]);
    f := Fields(p[1] / 128 == 1, Pusi(p), p[1] / 32 % 2 == 1, Pid(p), p[3] / 64, Afc(p), ContinuityCounter(p),
      adaptation, p[o..]);
    HeaderBytes(p, f);
    assert AdaptationField(f) == p[4..o] by {
      assert Afc(p) >= 2 ==> p[4..o] == [p[4]] + p[5..o];
    }
    hide *;
    ThreeParts(p, o, f);
  }

  lemma ThreeParts(p: Packet, o: nat, f: Fields)
    requires 4 <= o <= 188 && FixedHeader(f) == p[..4] && AdaptationField(f) == p[4..o] && f.payload == p[o..]
    ensures Packed(f) == p
  {
    hide FixedHeader, AdaptationField;
    assert p[..4] + p[4..o] == p[..o];
  }

  lemma HeaderBytes(p: Packet, f: Fields)
    requires p[0] == 0x47 && f.error == (p[1] / 128 == 1) && f.start == Pusi(p) && f.priority == (p[1] / 32 % 2 == 1)
    requires f.pid == Pid(p) && f.scrambling == p[3] / 64 && f.control == Afc(p) && f.cc == ContinuityCounter(p)
    ensures FixedHeader(f) == p[..4]
  {
    PidParts(p[1], p[2]);
    BitsOf(p[1]);
    BitsOf(p[3]);
  }

  lemma BitsOf(b: byte)
    ensures b == b / 128 * 128 + b / 64 % 2 * 64 + b / 32 % 2 * 32 + b % 32 && b / 128 < 2
    ensures b == b / 64 * 64 + b / 16 % 4 * 16 + b % 16
  {
    HighBits(b / 16);
    assert b / 32 == b / 16 / 2 && b / 64 == b / 16 / 4 && b / 128 == b / 16 / 8;
  }

  lemma HighBits(n: nat)
    requires n < 16
    ensures n == n / 4 * 4 + n % 4 && n / 2 == n / 8 * 4 + n / 4 % 2 * 2 + n / 2 % 2 && n / 8 < 2
  {
  }

  lemma PidParts(a: byte, b: byte)
    ensures var pid := a % 32 * 256 + b; pid < 8192 && pid / 256 == a % 32 && pid % 256 == b
  {
  }

  /** The length field of a section, written in twelve bits behind four others. */
  lemma LengthRead(tableId: byte, flags: nat, length: nat, rest: seq<byte>)
    requires flags < 16 && length < 4096
    ensures var s := [tableId, flags * 16 + length / 256, length % 256] + rest;
      SectionLength(s) == length && FullLength(s) == length + 3
  {
  }
}

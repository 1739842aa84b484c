/**
 The program's side of the CRC: a 32-bit word, a table of 256 constants and one look-up per
 byte.  Machine words are related to the polynomials of Crc32 bit by bit.
 */
module CrcTable {
  import opened Bytes
  import opened Crc32

  // ---------- the program's table, sixteen rows of sixteen entries ----------

  const ROW_0: seq<bv32> := [
    0x00000000, 0x04c11db7, 0x09823b6e, 0x0d4326d9, 0x130476dc, 0x17c56b6b, 0x1a864db2, 0x1e475005,
    0x2608edb8, 0x22c9f00f, 0x2f8ad6d6, 0x2b4bcb61, 0x350c9b64, 0x31cd86d3, 0x3c8ea00a, 0x384fbdbd ]
  const ROW_1: seq<bv32> := [
    0x4c11db70, 0x48d0c6c7, 0x4593e01e, 0x4152fda9, 0x5f15adac, 0x5bd4b01b, 0x569796c2, 0x52568b75,
    0x6a1936c8, 0x6ed82b7f, 0x639b0da6, 0x675a1011, 0x791d4014, 0x7ddc5da3, 0x709f7b7a, 0x745e66cd ]
  const ROW_2: seq<bv32> := [
    0x9823b6e0, 0x9ce2ab57, 0x91a18d8e, 0x95609039, 0x8b27c03c, 0x8fe6dd8b, 0x82a5fb52, 0x8664e6e5,
    0xbe2b5b58, 0xbaea46ef, 0xb7a96036, 0xb3687d81, 0xad2f2d84, 0xa9ee3033, 0xa4ad16ea, 0xa06c0b5d ]
  const ROW_3: seq<bv32> := [
    0xd4326d90, 0xd0f37027, 0xddb056fe, 0xd9714b49, 0xc7361b4c, 0xc3f706fb, 0xceb42022, 0xca753d95,
    0xf23a8028, 0xf6fb9d9f, 0xfbb8bb46, 0xff79a6f1, 0xe13ef6f4, 0xe5ffeb43, 0xe8bccd9a, 0xec7dd02d ]
  const ROW_4: seq<bv32> := [
    0x34867077, 0x30476dc0, 0x3d044b19, 0x39c556ae, 0x278206ab, 0x23431b1c, 0x2e003dc5, 0x2ac12072,
    0x128e9dcf, 0x164f8078, 0x1b0ca6a1, 0x1fcdbb16, 0x018aeb13, 0x054bf6a4, 0x0808d07d, 0x0cc9cdca ]
  const ROW_5: seq<bv32> := [
    0x7897ab07, 0x7c56b6b0, 0x71159069, 0x75d48dde, 0x6b93dddb, 0x6f52c06c, 0x6211e6b5, 0x66d0fb02,
    0x5e9f46bf, 0x5a5e5b08, 0x571d7dd1, 0x53dc6066, 0x4d9b3063, 0x495a2dd4, 0x44190b0d, 0x40d816ba ]
  const ROW_6: seq<bv32> := [
    0xaca5c697, 0xa864db20, 0xa527fdf9, 0xa1e6e04e, 0xbfa1b04b, 0xbb60adfc, 0xb6238b25, 0xb2e29692,
    0x8aad2b2f, 0x8e6c3698, 0x832f1041, 0x87ee0df6, 0x99a95df3, 0x9d684044, 0x902b669d, 0x94ea7b2a ]
  const ROW_7: seq<bv32> := [
    0xe0b41de7, 0xe4750050, 0xe9362689, 0xedf73b3e, 0xf3b06b3b, 0xf771768c, 0xfa325055, 0xfef34de2,
    0xc6bcf05f, 0xc27dede8, 0xcf3ecb31, 0xcbffd686, 0xd5b88683, 0xd1799b34, 0xdc3abded, 0xd8fba05a ]
  const ROW_8: seq<bv32> := [
    0x690ce0ee, 0x6dcdfd59, 0x608edb80, 0x644fc637, 0x7a089632, 0x7ec98b85, 0x738aad5c, 0x774bb0eb,
    0x4f040d56, 0x4bc510e1, 0x46863638, 0x42472b8f, 0x5c007b8a, 0x58c1663d, 0x558240e4, 0x51435d53 ]
  const ROW_9: seq<bv32> := [
    0x251d3b9e, 0x21dc2629, 0x2c9f00f0, 0x285e1d47, 0x36194d42, 0x32d850f5, 0x3f9b762c, 0x3b5a6b9b,
    0x0315d626, 0x07d4cb91, 0x0a97ed48, 0x0e56f0ff, 0x1011a0fa, 0x14d0bd4d, 0x19939b94, 0x1d528623 ]
  const ROW_A: seq<bv32> := [
    0xf12f560e, 0xf5ee4bb9, 0xf8ad6d60, 0xfc6c70d7, 0xe22b20d2, 0xe6ea3d65, 0xeba91bbc, 0xef68060b,
    0xd727bbb6, 0xd3e6a601, 0xdea580d8, 0xda649d6f, 0xc423cd6a, 0xc0e2d0dd, 0xcda1f604, 0xc960ebb3 ]
  const ROW_B: seq<bv32> := [
    0xbd3e8d7e, 0xb9ff90c9, 0xb4bcb610, 0xb07daba7, 0xae3afba2, 0xaafbe615, 0xa7b8c0cc, 0xa379dd7b,
    0x9b3660c6, 0x9ff77d71, 0x92b45ba8, 0x9675461f, 0x8832161a, 0x8cf30bad, 0x81b02d74, 0x857130c3 ]
  const ROW_C: seq<bv32> := [
    0x5d8a9099, 0x594b8d2e, 0x5408abf7, 0x50c9b640, 0x4e8ee645, 0x4a4ffbf2, 0x470cdd2b, 0x43cdc09c,
    0x7b827d21, 0x7f436096, 0x7200464f, 0x76c15bf8, 0x68860bfd, 0x6c47164a, 0x61043093, 0x65c52d24 ]
  const ROW_D: seq<bv32> := [
    0x119b4be9, 0x155a565e, 0x18197087, 0x1cd86d30, 0x029f3d35, 0x065e2082, 0x0b1d065b, 0x0fdc1bec,
    0x3793a651, 0x3352bbe6, 0x3e119d3f, 0x3ad08088, 0x2497d08d, 0x2056cd3a, 0x2d15ebe3, 0x29d4f654 ]
  const ROW_E: seq<bv32> := [
    0xc5a92679, 0xc1683bce, 0xcc2b1d17, 0xc8ea00a0, 0xd6ad50a5, 0xd26c4d12, 0xdf2f6bcb, 0xdbee767c,
    0xe3a1cbc1, 0xe760d676, 0xea23f0af, 0xeee2ed18, 0xf0a5bd1d, 0xf464a0aa, 0xf9278673, 0xfde69bc4 ]
  const ROW_F: seq<bv32> := [
    0x89b8fd09, 0x8d79e0be, 0x803ac667, 0x84fbdbd0, 0x9abc8bd5, 0x9e7d9662, 0x933eb0bb, 0x97ffad0c,
    0xafb010b1, 0xab710d06, 0xa6322bdf, 0xa2f33668, 0xbcb4666d, 0xb8757bda, 0xb5365d03, 0xb1f740b4 ]

  const CRC32_TABLE: seq<seq<bv32>> := [
    ROW_0, ROW_1, ROW_2, ROW_3, ROW_4, ROW_5, ROW_6, ROW_7,
    ROW_8, ROW_9, ROW_A, ROW_B, ROW_C, ROW_D, ROW_E, ROW_F ]

  lemma RowLengths(h: nat)
    requires h < |CRC32_TABLE|
    ensures |CRC32_TABLE[h]| == 16
  {
  }

  function TableEntry(x: bv32): bv32
    requires x < 256
  {
    assert (x >> 4) as int < 16 && (x & 0xf) as int < 16;
    RowLengths((x >> 4) as int);
    CRC32_TABLE[(x >> 4) as int][(x & 0xf) as int]
  }

  /** The byte in a machine word, from its binary digits. */
  function Word(b: byte): (x: bv32)
    ensures x < 256
  {
    if b == 0 then 0 else Digit(Word(b / 2), b % 2 == 1)
  }

  /** One more binary digit of a byte. */
  function Digit(x: bv32, d: bool): (y: bv32)
    ensures y < 256
  {
    if d then ((x << 1) | 1) & 0xff else (x << 1) & 0xff
  }

  function Index(c: bv32, b: bv32): (x: bv32)
    requires b < 256
    ensures x < 256
  {
    ((c >> 24) ^ b) & 0xff
  }

  function Join(c: bv32, t: bv32): bv32
  {
    (c << 8) ^ t
  }

  /** One turn of the program's loop over a 32-bit accumulator. */
  function TableStep(c: bv32, b: byte): bv32
  {
    Join(c, TableEntry(Index(c, Word(b))))
  }

  // Division on machine words, to evaluate the table's constants.

  function Divide(c: bv32): bv32
  {
    if c & 0x80000000 != 0 then (c << 1) ^ 0x04c11db7 else c << 1
  }

  function Divide8(c: bv32): bv32
  {
    Divide(Divide(Divide(Divide(Divide(Divide(Divide(Divide(c))))))))
  }

  ghost predicate Entry(row: seq<bv32>, j: nat, x: bv32)
  {
    j < |row| && row[j] == Divide8(x << 24)
  }

  lemma Row0(x: bv32)
    requires x >> 4 == 0x0
    ensures Entry(ROW_0, (x & 0xf) as int, x)
  {
  }

  lemma Row1(x: bv32)
    requires x >> 4 == 0x1
    ensures Entry(ROW_1, (x & 0xf) as int, x)
  {
  }

  lemma Row2(x: bv32)
    requires x >> 4 == 0x2
    ensures Entry(ROW_2, (x & 0xf) as int, x)
  {
  }

  lemma Row3(x: bv32)
    requires x >> 4 == 0x3
    ensures Entry(ROW_3, (x & 0xf) as int, x)
  {
  }

  lemma Row4(x: bv32)
    requires x >> 4 == 0x4
    ensures Entry(ROW_4, (x & 0xf) as int, x)
  {
  }

  lemma Row5(x: bv32)
    requires x >> 4 == 0x5
    ensures Entry(ROW_5, (x & 0xf) as int, x)
  {
  }

  lemma Row6(x: bv32)
    requires x >> 4 == 0x6
    ensures Entry(ROW_6, (x & 0xf) as int, x)
  {
  }

  lemma Row7(x: bv32)
    requires x >> 4 == 0x7
    ensures Entry(ROW_7, (x & 0xf) as int, x)
  {
  }

  lemma Row8(x: bv32)
    requires x >> 4 == 0x8
    ensures Entry(ROW_8, (x & 0xf) as int, x)
  {
  }

  lemma Row9(x: bv32)
    requires x >> 4 == 0x9
    ensures Entry(ROW_9, (x & 0xf) as int, x)
  {
  }

  lemma RowA(x: bv32)
    requires x >> 4 == 0xa
    ensures Entry(ROW_A, (x & 0xf) as int, x)
  {
  }

  lemma RowB(x: bv32)
    requires x >> 4 == 0xb
    ensures Entry(ROW_B, (x & 0xf) as int, x)
  {
  }

  lemma RowC(x: bv32)
    requires x >> 4 == 0xc
    ensures Entry(ROW_C, (x & 0xf) as int, x)
  {
  }

  lemma RowD(x: bv32)
    requires x >> 4 == 0xd
    ensures Entry(ROW_D, (x & 0xf) as int, x)
  {
  }

  lemma RowE(x: bv32)
    requires x >> 4 == 0xe
    ensures Entry(ROW_E, (x & 0xf) as int, x)
  {
  }

  lemma RowF(x: bv32)
    requires x >> 4 == 0xf
    ensures Entry(ROW_F, (x & 0xf) as int, x)
  {
  }

  /** Every one of the 256 entries is the remainder of its index shifted to the top byte. */
  lemma TableIsDivision(x: bv32)
    requires x < 256
    ensures TableEntry(x) == Divide8(x << 24)
  {
    if x >> 4 == 0x0 { Row0(x); }
    else if x >> 4 == 0x1 { Row1(x); }
    else if x >> 4 == 0x2 { Row2(x); }
    else if x >> 4 == 0x3 { Row3(x); }
    else if x >> 4 == 0x4 { Row4(x); }
    else if x >> 4 == 0x5 { Row5(x); }
    else if x >> 4 == 0x6 { Row6(x); }
    else if x >> 4 == 0x7 { Row7(x); }
    else if x >> 4 == 0x8 { Row8(x); }
    else if x >> 4 == 0x9 { Row9(x); }
    else if x >> 4 == 0xa { RowA(x); }
    else if x >> 4 == 0xb { RowB(x); }
    else if x >> 4 == 0xc { RowC(x); }
    else if x >> 4 == 0xd { RowD(x); }
    else if x >> 4 == 0xe { RowE(x); }
    else if x >> 4 == 0xf { RowF(x); }
  }

  // ---------- machine words as polynomials ----------

  // Operations on words have names, so that a proof that does not need their bits need not see them.

  function Twice(x: bv32): bv32 { x << 1 }

  /** The most significant bit. */
  predicate Lead(x: bv32) { x & 0x80000000 != 0 }

  function Xor(x: bv32, y: bv32): bv32 { x ^ y }

  function And(x: bv32, y: bv32): bv32 { x & y }

  /** The n most significant bits of a machine word. */
  function TopBits(x: bv32, n: nat): (s: seq<bool>)
    ensures |s| == n
    decreases n
  {
    if n == 0 then [] else [Lead(x)] + TopBits(Twice(x), n - 1)
  }

  function WordBits(x: bv32): Poly
  {
    TopBits(x, 32)
  }

  function ShiftBy(x: bv32, n: nat): bv32
    decreases n
  {
    if n == 0 then x else ShiftBy(Twice(x), n - 1)
  }

  lemma {:induction false} TopBitsAppend(x: bv32, m: nat, n: nat)
    ensures TopBits(x, m + n) == TopBits(x, m) + TopBits(ShiftBy(x, m), n)
    decreases m
  {
    hide Twice, Lead;
    if m != 0 {
      TopBitsAppend(Twice(x), m - 1, n);
    }
  }

  lemma {:induction false} ShiftByAppend(x: bv32, m: nat, n: nat)
    ensures ShiftBy(x, m + n) == ShiftBy(ShiftBy(x, m), n)
    decreases m
  {
    hide Twice;
    if m != 0 {
      ShiftByAppend(Twice(x), m - 1, n);
    }
  }

  lemma ShiftBy4(x: bv32)
    ensures ShiftBy(x, 4) == Twice(Twice(Twice(Twice(x))))
  {
    hide Twice;
    assert ShiftBy(x, 4) == ShiftBy(Twice(Twice(x)), 2);
  }

  lemma Twice8(x: bv32)
    ensures Twice(Twice(Twice(Twice(Twice(Twice(Twice(Twice(x)))))))) == x << 8
  {
  }

  lemma ShiftBy8(x: bv32)
    ensures ShiftBy(x, 8) == x << 8
  {
    Twice8(x);
    hide *;
    ShiftByAppend(x, 4, 4);
    ShiftBy4(x);
    ShiftBy4(Twice(Twice(Twice(Twice(x)))));
  }

  function Up8(x: bv32): bv32 { x << 8 }

  /** Shifts by whole bytes. */
  lemma {:induction false} ShiftByBytes(x: bv32)
    ensures ShiftBy(x, 8) == Up8(x)
    ensures ShiftBy(x, 16) == Up8(Up8(x))
    ensures ShiftBy(x, 24) == Up8(Up8(Up8(x)))
    ensures ShiftBy(x, 32) == Up8(Up8(Up8(Up8(x))))
  {
    UpIsShift(x);
    UpIsShift(Up8(x));
    UpIsShift(Up8(Up8(x)));
    UpIsShift(Up8(Up8(Up8(x))));
    hide *;
    ShiftByAppend(x, 8, 8);
    ShiftByAppend(x, 16, 8);
    ShiftByAppend(x, 24, 8);
  }

  lemma UpIsShift(x: bv32)
    ensures ShiftBy(x, 8) == Up8(x)
  {
    ShiftBy8(x);
    hide ShiftBy;
  }

  lemma UpIs(x: bv32)
    ensures Up8(Up8(x)) == x << 16 && Up8(Up8(Up8(x))) == x << 24 && Up8(Up8(Up8(Up8(x)))) == 0
  {
  }

  lemma ShiftBy16(x: bv32)
    ensures ShiftBy(x, 16) == x << 16
  {
    UpIs(x);
    hide ShiftBy, Up8;
    ShiftByBytes(x);
  }

  lemma ShiftBy32(x: bv32)
    ensures ShiftBy(x, 24) == x << 24
    ensures ShiftBy(x, 32) == 0
  {
    UpIs(x);
    hide ShiftBy, Up8;
    ShiftByBytes(x);
  }

  lemma XorTwice(x: bv32, y: bv32)
    ensures Twice(Xor(x, y)) == Xor(Twice(x), Twice(y))
  {
  }

  lemma XorLead(x: bv32, y: bv32)
    ensures Lead(Xor(x, y)) == (Lead(x) != Lead(y))
  {
  }

  /** Exclusive or adds polynomials. */
  lemma {:induction false} XorIsPlus(x: bv32, y: bv32, n: nat)
    ensures TopBits(Xor(x, y), n) == Plus(TopBits(x, n), TopBits(y, n))
    decreases n
  {
    hide Twice, Lead, Xor;
    if n != 0 {
      XorTwice(x, y);
      XorLead(x, y);
      XorIsPlus(Twice(x), Twice(y), n - 1);
    }
  }

  lemma ZeroTwice()
    ensures Twice(0) == 0 && !Lead(0)
  {
  }

  lemma {:induction false} ZeroTopBits(n: nat)
    ensures TopBits(0, n) == Zeros(n)
  {
    hide Twice, Lead;
    if n != 0 {
      ZeroTwice();
      ZeroTopBits(n - 1);
    }
  }

  lemma OnlyZeroTwice(x: bv32)
    requires Twice(x) == 0 && !Lead(x)
    ensures x == 0
  {
  }

  lemma {:induction false} OnlyZeroIsZero(x: bv32, n: nat)
    requires TopBits(x, n) == Zeros(n) && ShiftBy(x, n) == 0
    ensures x == 0
    decreases n
  {
    hide Twice, Lead;
    if n != 0 {
      assert TopBits(x, n)[0] == Zeros(n)[0];
      assert TopBits(Twice(x), n - 1) == TopBits(x, n)[1..] == Zeros(n)[1..] == Zeros(n - 1);
      OnlyZeroIsZero(Twice(x), n - 1);
      OnlyZeroTwice(x);
    }
  }

  lemma ZeroWord(x: bv32)
    ensures x == 0 <==> WordBits(x) == Zeros(32)
  {
    hide TopBits, ShiftBy, Zeros;
    ZeroTopBits(32);
    ShiftBy32(x);
    if WordBits(x) == Zeros(32) {
      OnlyZeroIsZero(x, 32);
    }
  }

  lemma ShiftOneIsDrop(x: bv32)
    ensures WordBits(Twice(x)) == WordBits(x)[1..] + [false]
  {
    ZeroBit();
    OneMoreBit(x);
    hide TopBits, ShiftBy, Twice, Lead;
    TopBitsAppend(x, 32, 1);
    ShiftBy32(x);
  }

  lemma ZeroBit()
    ensures TopBits(0, 1) == [false]
  {
    hide Twice, Lead;
    ZeroTwice();
    ZeroTopBits(0);
    assert TopBits(0, 1) == [Lead(0)] + TopBits(Twice(0), 0);
  }

  lemma OneMoreBit(x: bv32)
    ensures TopBits(x, 33)[1..] == WordBits(Twice(x))
  {
    hide Twice, Lead;
    assert TopBits(x, 33) == [Lead(x)] + TopBits(Twice(x), 32);
  }

  /** The first byte of a word, and the others. */
  lemma WordSplit(x: bv32)
    ensures WordBits(x) == TopBits(x, 8) + TopBits(x << 8, 24)
  {
    hide TopBits, ShiftBy;
    TopBitsAppend(x, 8, 24);
    ShiftBy8(x);
  }

  lemma LowThreeBytes(x: bv32)
    ensures TopBits(x << 8, 24) == WordBits(x)[8..]
  {
    hide TopBits;
    WordSplit(x);
  }

  lemma ZeroTail(y: bv32)
    requires ShiftBy(y, 24) == 0
    ensures WordBits(y) == TopBits(y, 24) + Zeros(8)
  {
    hide TopBits, ShiftBy;
    TopBitsAppend(y, 24, 8);
    ZeroTopBits(8);
  }

  lemma LowByteEmpty(x: bv32)
    ensures x << 8 << 24 == 0
  {
  }

  lemma LastByteGone(x: bv32)
    ensures WordBits(x << 8) == TopBits(x << 8, 24) + Zeros(8)
  {
    hide TopBits, ShiftBy, WordBits;
    ShiftBy32(x << 8);
    LowByteEmpty(x);
    ZeroTail(x << 8);
  }

  lemma ShiftEightIsDrop(x: bv32)
    ensures WordBits(x << 8) == WordBits(x)[8..] + Zeros(8)
  {
    hide TopBits, WordBits;
    LowThreeBytes(x);
    LastByteGone(x);
  }

  lemma GeneratorBytes()
    ensures TopBits(0x04c11db7, 8) == GENERATOR_0
    ensures TopBits(0xc11db700, 8) == GENERATOR_1
  {
  }

  lemma GeneratorBytes'()
    ensures TopBits(0x1db70000, 8) == GENERATOR_2
    ensures TopBits(0xb7000000, 8) == GENERATOR_3
  {
  }

  lemma GeneratorWord()
    ensures WordBits(0x04c11db7) == GENERATOR
  {
    GeneratorBytes();
    GeneratorBytes'();
    ShiftedGenerator();
    hide TopBits, ShiftBy;
    WordSplit(0x04c11db7);
    TopBitsAppend(0xc11db700, 8, 16);
    ShiftBy8(0xc11db700);
    TopBitsAppend(0x1db70000, 8, 8);
    ShiftBy8(0x1db70000);
  }

  lemma ShiftedGenerator()
    ensures (0x04c11db7 as bv32) << 8 == 0xc11db700
    ensures (0xc11db700 as bv32) << 8 == 0x1db70000
    ensures (0x1db70000 as bv32) << 8 == 0xb7000000
  {
  }

  lemma LeadingBit(x: bv32)
    ensures WordBits(x)[0] == Lead(x)
  {
    hide Lead;
  }

  lemma DivideWords(x: bv32)
    ensures Divide(x) == if Lead(x) then Xor(Twice(x), 0x04c11db7) else Twice(x)
  {
  }

  lemma DivideIsFeedBit(x: bv32)
    ensures WordBits(Divide(x)) == FeedBit(WordBits(x), false)
  {
    DivideWords(x);
    hide TopBits, Divide, Lead, Xor, Twice;
    LeadingBit(x);
    ShiftOneIsDrop(x);
    GeneratorWord();
    XorIsPlus(Twice(x), 0x04c11db7, 32);
  }

  lemma {:induction false} FeedZeros(c: Poly, n: nat)
    ensures Remainder(c, Zeros(n + 1)) == FeedBit(Remainder(c, Zeros(n)), false)
  {
    assert Zeros(n + 1) == Zeros(n) + [false];
    RemainderAppend(c, Zeros(n), [false]);
    var d := Remainder(c, Zeros(n));
    assert Remainder(d, [false]) == Remainder(FeedBit(d, false), []);
  }

  /** n divisions. */
  function DivideBy(x: bv32, n: nat): bv32
  {
    if n == 0 then x else Divide(DivideBy(x, n - 1))
  }

  lemma {:induction false} DivideByIsZeros(x: bv32, n: nat)
    ensures WordBits(DivideBy(x, n)) == Remainder(WordBits(x), Zeros(n))
  {
    hide Divide, WordBits, FeedBit;
    if n == 0 {
      assert Zeros(0) == [];
    } else {
      DivideByIsZeros(x, n - 1);
      hide Remainder;
      FeedZeros(WordBits(x), n - 1);
      DivideIsFeedBit(DivideBy(x, n - 1));
    }
  }

  lemma DivideBy4(x: bv32)
    ensures DivideBy(x, 4) == Divide(Divide(Divide(Divide(x))))
  {
    hide Divide;
    assert DivideBy(x, 0) == x && DivideBy(x, 1) == Divide(x);
    assert DivideBy(x, 2) == Divide(Divide(x));
    assert DivideBy(x, 4) == Divide(Divide(DivideBy(x, 2)));
  }

  lemma DivideBy8(x: bv32)
    ensures DivideBy(x, 8) == Divide8(x)
  {
    hide Divide;
    DivideBy4(x);
    assert DivideBy(x, 6) == Divide(Divide(DivideBy(x, 4)));
    assert DivideBy(x, 8) == Divide(Divide(DivideBy(x, 6)));
  }

  lemma Divide8IsZeros(x: bv32)
    ensures WordBits(Divide8(x)) == Remainder(WordBits(x), Zeros(8))
  {
    hide *;
    DivideByIsZeros(x, 8);
    DivideBy8(x);
  }

  // ---------- the top byte ----------

  lemma AndStep(x: bv32, m: bv32)
    requires Lead(m)
    ensures Twice(And(x, m)) == And(Twice(x), Twice(m)) && Lead(And(x, m)) == Lead(x)
  {
  }

  lemma {:induction false} MaskKeepsTop(x: bv32, m: bv32, n: nat)
    requires TopBits(m, n) == Repeat(true, n)
    ensures TopBits(And(x, m), n) == TopBits(x, n)
    decreases n
  {
    hide Twice, Lead, And;
    if n != 0 {
      assert TopBits(m, n)[0] == Repeat(true, n)[0];
      assert TopBits(Twice(m), n - 1) == TopBits(m, n)[1..] == Repeat(true, n - 1);
      AndStep(x, m);
      MaskKeepsTop(Twice(x), Twice(m), n - 1);
    }
  }

  lemma MaskShiftedOut(x: bv32)
    ensures (x & 0xff000000) << 8 == 0
  {
  }

  lemma AllOnes()
    ensures TopBits(0xff000000, 8) == Repeat(true, 8)
  {
  }

  lemma TopByteWord(x: bv32)
    ensures WordBits(And(x, 0xff000000)) == WordBits(x)[..8] + Zeros(24)
  {
    var y := And(x, 0xff000000);
    MaskShiftedOut(x);
    assert y << 8 == 0;
    hide *;
    AllOnes();
    MaskKeepsTop(x, 0xff000000, 8);
    WordSplit(y);
    WordSplit(x);
    ZeroTopBits(24);
  }

  lemma ByteShiftedOut(b: bv32)
    requires b < 256
    ensures b << 24 << 8 == 0
  {
  }

  /** A word below 256 as a byte. */
  function Value(x: bv32): byte
    requires x < 256
  {
    x as byte
  }

  lemma ByteTopBit(x: bv32)
    requires x < 256
    ensures Lead(x << 24) == (Value(x) >= 128)
  {
  }

  lemma ShiftOutWord(x: bv32)
    requires x < 256
    ensures Value((x << 1) & 0xff) == ShiftOut(Value(x))
  {
  }

  lemma ShiftOutPlace(x: bv32)
    ensures ((x << 1) & 0xff) << 24 == Twice(x << 24)
  {
  }

  /** Moved to the top byte it shows the bits of that byte. */
  lemma {:induction false} ByteTop(x: bv32, n: nat)
    requires x < 256
    ensures TopBits(x << 24, n) == TopOfByte(Value(x), n)
    decreases n
  {
    hide Twice, Lead, ShiftOut, Value;
    if n != 0 {
      ByteTopBit(x);
      ShiftOutWord(x);
      ShiftOutPlace(x);
      ByteTop((x << 1) & 0xff, n - 1);
    }
  }

  lemma DigitValue0(x: bv32)
    requires x < 128
    ensures Value((x << 1) & 0xff) as int == 2 * Value(x) as int
  {
  }

  lemma DigitValue1(x: bv32)
    requires x < 128
    ensures Value(((x << 1) | 1) & 0xff) as int == 2 * Value(x) as int + 1
  {
  }

  lemma DigitValue(x: bv32, d: bool)
    requires x < 128
    ensures Value(Digit(x, d)) as int == 2 * Value(x) as int + if d then 1 else 0
  {
    hide Value;
    if d {
      DigitValue1(x);
    } else {
      DigitValue0(x);
    }
  }

  lemma SmallWord(x: bv32)
    requires x < 256 && Value(x) < 128
    ensures x < 128
  {
  }

  lemma {:induction false} WordOfByte(b: byte)
    ensures Value(Word(b)) == b
  {
    hide Digit, Value;
    if b == 0 {
      ZeroValue();
    } else {
      WordOfByte(b / 2);
      SmallWord(Word(b / 2));
      DigitValue(Word(b / 2), b % 2 == 1);
    }
  }

  lemma ZeroValue()
    ensures Value(0) == 0
  {
  }

  lemma ByteWord(b: byte)
    ensures WordBits(Word(b) << 24) == ByteBits(b) + Zeros(24)
  {
    ByteShiftedOut(Word(b));
    hide Word, Zeros, TopBits, WordBits, TopOfByte, Value;
    WordOfByte(b);
    ByteTop(Word(b), 8);
    WordSplit(Word(b) << 24);
    ZeroTopBits(24);
  }

  // ---------- the program's step is the specification's ----------

  lemma OwnByteLeavesRest(a: Poly, bits: seq<bool>)
    requires |bits| == 8 && a[..8] == bits
    ensures Remainder(a, bits) == a[8..] + Zeros(8)
  {
    FeedOwnBits(a, 8);
  }

  lemma SplitTop(c: Poly, bits: seq<bool>)
    requires |bits| == 8
    ensures Plus(c, bits + Zeros(24)) == Plus(Plus(c[..8], bits) + Zeros(24), Zeros(8) + c[8..])
  {
  }

  lemma PlusZeros(a: seq<bool>)
    ensures Plus(a, Zeros(|a|)) == a
  {
  }

  /** Feeding eight bits from remainder c is dividing out the top byte of c plus those bits. */
  lemma FeedThroughTop(c: Poly, bits: seq<bool>)
    requires |bits| == 8
    ensures Remainder(c, bits)
         == Plus(Remainder(Plus(c[..8], bits) + Zeros(24), Zeros(8)), c[8..] + Zeros(8))
  {
    var a: Poly := bits + Zeros(24);
    var hi: Poly := Plus(c[..8], bits) + Zeros(24);
    var lo: Poly := Zeros(8) + c[8..];
    OwnByteLeavesRest(a, bits);
    assert a[8..] + Zeros(8) == Zeros(32);
    OwnByteLeavesRest(lo, Zeros(8));
    assert lo[8..] == c[8..];
    RemainderLinear(c, a, bits, bits);
    PlusSelf(bits);
    SplitTop(c, bits);
    RemainderLinear(hi, lo, Zeros(8), Zeros(8));
    PlusSelf(Zeros(8));
    PlusZeros(Remainder(c, bits));
  }

  lemma IndexWord(c: bv32, b: bv32)
    requires b < 256
    ensures Index(c, b) << 24 == Xor(And(c, 0xff000000), b << 24)
  {
  }

  lemma IndexBits(c: bv32, b: byte)
    ensures WordBits(Index(c, Word(b)) << 24) == Plus(WordBits(c)[..8], ByteBits(b)) + Zeros(24)
  {
    hide Word, Index, Xor, And, TopBits, TopOfByte, Zeros;
    IndexWord(c, Word(b));
    XorIsPlus(And(c, 0xff000000), Word(b) << 24, 32);
    TopByteWord(c);
    ByteWord(b);
    PlusPadded(WordBits(c)[..8], ByteBits(b), 24);
  }

  lemma PlusPadded(a: seq<bool>, b: seq<bool>, n: nat)
    requires |a| == |b|
    ensures Plus(a + Zeros(n), b + Zeros(n)) == Plus(a, b) + Zeros(n)
  {
  }

  lemma TableEntryBits(index: bv32)
    requires index < 256
    ensures WordBits(TableEntry(index)) == Remainder(WordBits(index << 24), Zeros(8))
  {
    TableIsDivision(index);
    Divide8IsZeros(index << 24);
  }

  lemma XorWord(x: bv32, y: bv32)
    ensures WordBits(Xor(x, y)) == Plus(WordBits(y), WordBits(x))
  {
    hide Xor, TopBits;
    XorIsPlus(x, y, 32);
    PlusSwap(WordBits(y), WordBits(x));
  }

  lemma JoinWord(c: bv32, t: bv32)
    ensures Join(c, t) == Xor(c << 8, t)
  {
  }

  lemma JoinBits(c: bv32, t: bv32)
    ensures WordBits(Join(c, t)) == Plus(WordBits(t), WordBits(c)[8..] + Zeros(8))
  {
    hide Xor, Join, WordBits;
    JoinWord(c, t);
    XorWord(c << 8, t);
    ShiftEightIsDrop(c);
  }

  lemma PlusSwap(a: seq<bool>, b: seq<bool>)
    requires |a| == |b|
    ensures Plus(a, b) == Plus(b, a)
  {
  }

  /** One table look-up advances the remainder by exactly one byte of bit-serial division. */
  lemma TableStepIsDivision(c: bv32, b: byte)
    ensures WordBits(TableStep(c, b)) == Remainder(WordBits(c), ByteBits(b))
  {
    hide Word, Index, Join, TableEntry, WordBits, Remainder, Zeros;
    var index := Index(c, Word(b));
    JoinBits(c, TableEntry(index));
    TableEntryBits(index);
    IndexBits(c, b);
    FeedThroughTop(WordBits(c), ByteBits(b));
  }

  /** One more byte of a message through the table. */
  lemma NextByteFed(m: seq<byte>, i: nat, c: bv32)
    requires i < |m| && WordBits(c) == Crc(m[..i])
    ensures WordBits(TableStep(c, m[i])) == Crc(m[..i + 1])
  {
    hide *;
    TableStepIsDivision(c, m[i]);
    CrcSnoc(m[..i], m[i]);
    assert m[..i] + [m[i]] == m[..i + 1];
  }

  // ---------- the signature a writer appends ----------

  /** The low half of a 64-bit accumulator: what a writer with a wide `unsigned long` keeps. */
  function Low(c: bv64): bv32
  {
    (c & 0xffffffff) as bv32
  }

  function WideIndex(c: bv64, b: bv64): (x: bv32)
    requires b < 256
    ensures x < 256
  {
    (((c >> 24) ^ b) & 0xff) as bv32
  }

  function WideJoin(c: bv64, t: bv32): bv64
  {
    (c << 8) ^ (t as bv64)
  }

  /** One turn of the writers' loop, whose accumulator is never truncated to 32 bits. */
  function WideStep(c: bv64, b: byte): bv64
  {
    WideJoin(c, TableEntry(WideIndex(c, Word(b) as bv64)))
  }

  lemma WideIndexIsIndex(c: bv64, b: bv32)
    requires b < 256
    ensures WideIndex(c, b as bv64) == Index(Low(c), b)
  {
  }

  lemma WideJoinIsJoin(c: bv64, t: bv32)
    ensures Low(WideJoin(c, t)) == Join(Low(c), t)
  {
  }

  /** The bits above the 32nd never reach the low half. */
  lemma WideStepIsStep(c: bv64, b: byte)
    ensures Low(WideStep(c, b)) == TableStep(Low(c), b)
  {
    WideIndexIsIndex(c, Word(b));
    WideJoinIsJoin(c, TableEntry(WideIndex(c, Word(b) as bv64)));
  }

  /** Byte k of a word, most significant first. */
  function ByteAt(w: bv32, k: nat): byte
    requires k < 4
  {
    if k == 0 then Value((w >> 24) & 0xff)
    else if k == 1 then Value((w >> 16) & 0xff)
    else if k == 2 then Value((w >> 8) & 0xff)
    else Value(w & 0xff)
  }

  /** The four bytes of a word: what the writers store. */
  function Signature(w: bv32): (s: seq<byte>)
    ensures |s| == 4
  {
    [ByteAt(w, 0), ByteAt(w, 1), ByteAt(w, 2), ByteAt(w, 3)]
  }

  /** The same byte of the wide accumulator. */
  function StoredByte(c: bv64, k: nat): byte
    requires k < 4
  {
    if k == 0 then ((c >> 24) & 0xff) as byte
    else if k == 1 then ((c >> 16) & 0xff) as byte
    else if k == 2 then ((c >> 8) & 0xff) as byte
    else (c & 0xff) as byte
  }

  lemma StoredByteIsSigned(c: bv64, k: nat)
    requires k < 4
    ensures StoredByte(c, k) == ByteAt(Low(c), k)
  {
    if k == 0 { StoredByte0(c); }
    else if k == 1 { StoredByte1(c); }
    else if k == 2 { StoredByte2(c); }
    else { StoredByte3(c); }
  }

  lemma StoredByte0(c: bv64)
    ensures StoredByte(c, 0) == ByteAt(Low(c), 0)
  {
    assert (c >> 24) & 0xff == ((Low(c) >> 24) & 0xff) as bv64;
  }

  lemma StoredByte1(c: bv64)
    ensures StoredByte(c, 1) == ByteAt(Low(c), 1)
  {
    assert (c >> 16) & 0xff == ((Low(c) >> 16) & 0xff) as bv64;
  }

  lemma StoredByte2(c: bv64)
    ensures StoredByte(c, 2) == ByteAt(Low(c), 2)
  {
    assert (c >> 8) & 0xff == ((Low(c) >> 8) & 0xff) as bv64;
  }

  lemma StoredByte3(c: bv64)
    ensures StoredByte(c, 3) == ByteAt(Low(c), 3)
  {
    assert c & 0xff == (Low(c) & 0xff) as bv64;
  }

  lemma BytePlaced(x: bv32, w: bv32)
    requires x < 256 && x << 24 == And(w, 0xff000000)
    ensures ByteBits(Value(x)) == TopBits(w, 8)
  {
    hide Value, And, TopBits, TopOfByte;
    ByteTop(x, 8);
    AllOnes();
    MaskKeepsTop(w, 0xff000000, 8);
  }

  lemma PlaceBytes(w: bv32)
    ensures ((w >> 24) & 0xff) << 24 == And(w, 0xff000000)
    ensures ((w >> 16) & 0xff) << 24 == And(w << 8, 0xff000000)
    ensures ((w >> 8) & 0xff) << 24 == And(w << 16, 0xff000000)
    ensures (w & 0xff) << 24 == And(w << 24, 0xff000000)
  {
  }

  lemma FirstByte(w: bv32)
    ensures TopBits(w, 8) == WordBits(w)[..8]
  {
    hide TopBits;
    WordSplit(w);
  }

  lemma SignatureByte0(w: bv32)
    ensures ByteBits(ByteAt(w, 0)) == WordBits(w)[0..8]
  {
    PlaceBytes(w);
    BytePlaced((w >> 24) & 0xff, w);
    FirstByte(w);
  }

  lemma SignatureByte1(w: bv32)
    ensures ByteBits(ByteAt(w, 1)) == WordBits(w)[8..16]
  {
    PlaceBytes(w);
    BytePlaced((w >> 16) & 0xff, w << 8);
    WordSlice(w, 8, w << 8);
  }

  lemma SignatureByte2(w: bv32)
    ensures ByteBits(ByteAt(w, 2)) == WordBits(w)[16..24]
  {
    PlaceBytes(w);
    BytePlaced((w >> 8) & 0xff, w << 16);
    WordSlice(w, 16, w << 16);
  }

  lemma SignatureByte3(w: bv32)
    ensures ByteBits(ByteAt(w, 3)) == WordBits(w)[24..32]
  {
    PlaceBytes(w);
    BytePlaced(w & 0xff, w << 24);
    WordSlice(w, 24, w << 24);
  }

  lemma WordSlice(w: bv32, k: nat, v: bv32)
    requires (k == 8 && v == w << 8) || (k == 16 && v == w << 16) || (k == 24 && v == w << 24)
    ensures TopBits(v, 8) == WordBits(w)[k..k + 8]
  {
    ShiftBy8(w);
    ShiftBy16(w);
    ShiftBy32(w);
    TopBitsAppend(w, k, 8);
    TopBitsAppend(w, k + 8, 24 - k);
  }

  lemma FourSlices(bits: seq<bool>)
    requires |bits| == 32
    ensures bits[..8] + bits[8..16] + bits[16..24] + bits[24..32] == bits
  {
  }

  /** The four stored bytes spell the word's polynomial. */
  lemma SignatureBits(w: bv32)
    ensures MessageBits(Signature(w)) == WordBits(w)
  {
    hide ByteAt, ByteBits, WordBits, MessageBits;
    SignatureByte0(w);
    SignatureByte1(w);
    SignatureByte2(w);
    SignatureByte3(w);
    MessageBits4(ByteAt(w, 0), ByteAt(w, 1), ByteAt(w, 2), ByteAt(w, 3));
    FourSlices(WordBits(w));
  }

  /** The accumulator's initial value. */
  lemma AllOnesWord()
    ensures WordBits(0xffffffff) == Repeat(true, 32)
    ensures Crc([]) == WordBits(0xffffffff)
  {
    AllOnes();
    MaskedOnes(0xffffffff);
    MaskedOnes(0xffffff00);
    MaskedOnes(0xffff0000);
    MaskedOnes(0xff000000);
    TopBitsAppend(0xffffffff, 8, 24);
    ShiftBy8(0xffffffff);
    TopBitsAppend(0xffffff00, 8, 16);
    ShiftBy8(0xffffff00);
    TopBitsAppend(0xffff0000, 8, 8);
    ShiftBy8(0xffff0000);
  }

  lemma MaskedOnes(x: bv32)
    requires x & 0xff000000 == 0xff000000
    ensures TopBits(x, 8) == Repeat(true, 8)
  {
    AllOnes();
    MaskKeepsTop(x, 0xff000000, 8);
  }
}

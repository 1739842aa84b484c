/** Ring sizes: rounding up to a power of two, and wrapping an index with a mask. */
module RingSize {

  /** Powers of two up to 2^30, the ones a signed 32-bit size can hold. */
  predicate IsPower(n: nat)
    decreases n
  {
    n == 1 || (n > 1 && n % 2 == 0 && n <= 0x40000000 && IsPower(n / 2))
  }

  // ---------- masking ----------

  /** The bitwise conjunction of two unsigned numbers. */
  function And(a: nat, b: nat): (r: nat)
    decreases a
  {
    if a == 0 || b == 0 then 0 else 2 * And(a / 2, b / 2) + (if a % 2 == 1 && b % 2 == 1 then 1 else 0)
  }

  /** On a power-of-two ring, masking an incremented index wraps it. */
  lemma {:induction false} MaskWraps(i: nat, size: nat)
    requires IsPower(size) && i <= size
    ensures And(i, size - 1) == if i == size then 0 else i
    decreases i
  {
    if 0 < i && 1 < size {
      MaskWraps(i / 2, size / 2);
      assert (size - 1) / 2 == size / 2 - 1 && (size - 1) % 2 == 1;
    }
  }

  /** On any other size the mask fails already on the first lap. */
  lemma {:induction false} MaskNeedsPower(size: nat) returns (i: nat)
    requires 0 < size <= 0x40000000 && !IsPower(size)
    ensures 0 < i < size && And(i, size - 1) != i
    decreases size
  {
    if size % 2 == 1 {
      i := 1;
    } else {
      var half := MaskNeedsPower(size / 2);
      i := 2 * half;
      assert (size - 1) / 2 == size / 2 - 1;
      assert i / 2 == half && i % 2 == 0;
    }
  }

  // ---------- rounding ----------

  predicate OneBit(x: bv32)
  {
    x != 0 && x <= 0x40000000 && x & (x - 1) == 0
  }

  function Smear(x: bv32): bv32
  {
    var a := x | (x >> 1);
    var b := a | (a >> 2);
    var c := b | (b >> 4);
    var d := c | (c >> 8);
    d | (d >> 16)
  }

  lemma SmearedIsOneBit(x: bv32)
    requires 1 <= x <= 0x40000000
    ensures OneBit(Rounded(x)) && x <= Rounded(x) && Rounded(x) >> 1 < x
  {
  }

  lemma TooFarSmeared(x: bv32)
    requires x == 0 || x > 0x40000000
    ensures Rounded(x) == 0 || Rounded(x) == 0x80000000
  {
  }

  lemma OneBitIsPower(x: bv32)
    requires OneBit(x)
    ensures IsPower(x as nat)
  {
    OneBitIsListed(x);
    ListedIsPower(x as nat);
  }

  lemma ListedIsPower(n: nat)
    requires n == 0x1 || n == 0x2 || n == 0x4 || n == 0x8
         || n == 0x10 || n == 0x20 || n == 0x40 || n == 0x80
         || n == 0x100 || n == 0x200 || n == 0x400 || n == 0x800
         || n == 0x1000 || n == 0x2000 || n == 0x4000 || n == 0x8000
         || n == 0x10000 || n == 0x20000 || n == 0x40000 || n == 0x80000
         || n == 0x100000 || n == 0x200000 || n == 0x400000 || n == 0x800000
         || n == 0x1000000 || n == 0x2000000 || n == 0x4000000 || n == 0x8000000
         || n == 0x10000000 || n == 0x20000000 || n == 0x40000000
    ensures IsPower(n)
  {
  }

  lemma OneBitIsListed(x: bv32)
    requires OneBit(x)
    ensures x == 0x1 || x == 0x2 || x == 0x4 || x == 0x8
         || x == 0x10 || x == 0x20 || x == 0x40 || x == 0x80
         || x == 0x100 || x == 0x200 || x == 0x400 || x == 0x800
         || x == 0x1000 || x == 0x2000 || x == 0x4000 || x == 0x8000
         || x == 0x10000 || x == 0x20000 || x == 0x40000 || x == 0x80000
         || x == 0x100000 || x == 0x200000 || x == 0x400000 || x == 0x800000
         || x == 0x1000000 || x == 0x2000000 || x == 0x4000000 || x == 0x8000000
         || x == 0x10000000 || x == 0x20000000 || x == 0x40000000
  {
  }

  /** The smallest power of two that holds x, exactly for the x an int size can be rounded up from. */
  method RoundUp(x: bv32) returns (r: bv32)
    ensures 1 <= x <= 0x40000000 <==> OneBit(r)
    ensures OneBit(r) ==> IsPower(r as nat) && x <= r && r >> 1 < x
  {
    r := x - 1;
    r := r | (r >> 1);
    r := r | (r >> 2);
    r := r | (r >> 4);
    r := r | (r >> 8);
    r := r | (r >> 16);
    r := r + 1;
    assert r == Rounded(x);
    hide *;
    RoundedIsPower(x);
  }

  function Rounded(x: bv32): bv32
  {
    Smear(x - 1) + 1
  }

  lemma RoundedIsPower(x: bv32)
    ensures 1 <= x <= 0x40000000 <==> OneBit(Rounded(x))
    ensures OneBit(Rounded(x)) ==> IsPower(Rounded(x) as nat) && x <= Rounded(x) && Rounded(x) >> 1 < x
  {
    if 1 <= x <= 0x40000000 {
      SmearedIsOneBit(x);
      hide *;
      OneBitIsPower(Rounded(x));
    } else {
      TooFarSmeared(x);
      hide Smear;
    }
  }
}

/** Configuration values may be sums of products, such as 2+2*3; products bind tighter. */
module Expressions {
  import opened Bytes

  predicate IsDigit(c: char) { '0' <= c <= '9' }

  predicate IsSpace(c: char) { c == ' ' || '\t' <= c <= '\r' }

  // ---------- the evaluators ----------

  /** The number the leading digits spell, added to what was read before. */
  function Digits(s: string, n: int): int
  {
    if s == [] || !IsDigit(s[0]) then n else Digits(s[1..], 10 * n + (s[0] as int - '0' as int))
  }

  /** atoi: leading space, an optional sign, digits; anything after them is ignored. */
  function Atoi(s: string): int
  {
    if s == [] then 0
    else if IsSpace(s[0]) then Atoi(s[1..])
    else if s[0] == '-' then -Digits(s[1..], 0)
    else if s[0] == '+' then Digits(s[1..], 0)
    else Digits(s, 0)
  }

  /** strchr */
  function Find(s: string, c: char): (p: Option<nat>)
    ensures p.Some? ==> p.value < |s| && s[p.value] == c && c !in s[..p.value]
    ensures p.None? ==> c !in s
  {
    if s == [] then None
    else if s[0] == c then Some(0)
    else
      match Find(s[1..], c)
      case None => None
      case Some(i) => Some(i + 1)
  }

  function StringMult(s: string): int
  {
    match Find(s, '*')
    case None => Atoi(s)
    case Some(i) =>
      var rest := s[i + 1..];
      Atoi(s[..i]) * if Find(rest, '*').Some? then StringMult(rest) else Atoi(rest)
  }

  function StringComput(s: string): int
  {
    match Find(s, '+')
    case None => StringMult(s)
    case Some(i) =>
      var rest := s[i + 1..];
      StringMult(s[..i]) + if Find(rest, '+').Some? then StringComput(rest) else StringMult(rest)
  }

  // ---------- expressions and how they are written ----------

  function Decimal(n: nat): (s: string)
    ensures s != [] && forall c :: c in s ==> IsDigit(c)
  {
    var last := ['0' + (n % 10) as char];
    if n < 10 then last else Decimal(n / 10) + last
  }

  /** A product of numbers; a sum of products. */
  type Product = p: seq<nat> | p != [] witness [0]
  type Sum = e: seq<Product> | e != [] witness [One()]

  function One(): Product { [1] }

  function ProductValue(p: Product): nat
  {
    if |p| == 1 then p[0] else p[0] * ProductValue(p[1..])
  }

  function SumValue(e: Sum): nat
  {
    if |e| == 1 then ProductValue(e[0]) else ProductValue(e[0]) + SumValue(e[1..])
  }

  function ShowProduct(p: Product): string
  {
    if |p| == 1 then Decimal(p[0]) else Decimal(p[0]) + ['*'] + ShowProduct(p[1..])
  }

  function Show(e: Sum): string
  {
    if |e| == 1 then ShowProduct(e[0]) else ShowProduct(e[0]) + ['+'] + Show(e[1..])
  }

  // ---------- reading back ----------

  lemma {:induction false} DigitsContinue(s: string, t: string, n: int)
    requires forall c :: c in s ==> IsDigit(c)
    ensures Digits(s + t, n) == Digits(t, Digits(s, n))
  {
    if s == [] {
      assert s + t == t;
    } else {
      assert (s + t)[1..] == s[1..] + t;
      DigitsContinue(s[1..], t, 10 * n + (s[0] as int - '0' as int));
    }
  }

  lemma {:induction false} DigitsOfDecimal(n: nat)
    ensures Digits(Decimal(n), 0) == n
  {
    var last := ['0' + (n % 10) as char];
    assert last[1..] == [];
    if n >= 10 {
      DigitsOfDecimal(n / 10);
      DigitsContinue(Decimal(n / 10), last, 0);
    }
  }

  lemma AtoiOfDecimal(n: nat)
    ensures Atoi(Decimal(n)) == n
  {
    DigitsOfDecimal(n);
    assert Decimal(n)[0] in Decimal(n);
  }

  /** The first separator is the one written. */
  lemma {:induction false} FindWritten(s: string, c: char, rest: string)
    requires c !in s
    ensures Find(s + [c] + rest, c) == Some(|s|)
    ensures (s + [c] + rest)[..|s|] == s && (s + [c] + rest)[|s| + 1..] == rest
  {
    if s != [] {
      assert (s + [c] + rest)[1..] == s[1..] + [c] + rest;
      FindWritten(s[1..], c, rest);
    }
  }

  lemma {:induction false} ProductHasNoPlus(p: Product)
    ensures '+' !in ShowProduct(p)
    ensures |p| == 1 ==> '*' !in ShowProduct(p)
  {
    if |p| > 1 {
      ProductHasNoPlus(p[1..]);
    }
  }

  lemma {:induction false} ProductRead(p: Product)
    ensures StringMult(ShowProduct(p)) == ProductValue(p)
  {
    AtoiOfDecimal(p[0]);
    if |p| == 1 {
      ProductHasNoPlus(p);
    } else {
      ProductRead(p[1..]);
      FindWritten(Decimal(p[0]), '*', ShowProduct(p[1..]));
    }
  }

  /** An expression is evaluated with products before sums. */
  lemma {:induction false} ExpressionRead(e: Sum)
    ensures StringComput(Show(e)) == SumValue(e)
  {
    ProductRead(e[0]);
    ProductHasNoPlus(e[0]);
    if |e| > 1 {
      ExpressionRead(e[1..]);
      FindWritten(ShowProduct(e[0]), '+', Show(e[1..]));
    }
  }

  // ---------- when no int overflows ----------

  /** The value is one of a 32-bit signed int. */
  predicate Fits(n: int) { -0x80000000 <= n < 0x80000000 }

  /** Evaluating the string as a product computes no value that overflows. */
  predicate MultFits(s: string)
  {
    match Find(s, '*')
    case None => Fits(Atoi(s))
    case Some(i) =>
      var rest := s[i + 1..];
      Fits(Atoi(s[..i])) && (if Find(rest, '*').Some? then MultFits(rest) else Fits(Atoi(rest))) && Fits(StringMult(s))
  }

  predicate ComputFits(s: string)
  {
    match Find(s, '+')
    case None => MultFits(s)
    case Some(i) =>
      var rest := s[i + 1..];
      MultFits(s[..i]) && (if Find(rest, '+').Some? then ComputFits(rest) else MultFits(rest)) && Fits(StringComput(s))
  }

  /** Every product of the last factors fits. */
  predicate EndsFit(p: Product)
  {
    Fits(ProductValue(p)) && (|p| > 1 ==> Fits(p[0]) && EndsFit(p[1..]))
  }

  lemma {:induction false} ProductFitsExactlyWhen(p: Product)
    ensures MultFits(ShowProduct(p)) <==> EndsFit(p)
  {
    AtoiOfDecimal(p[0]);
    ProductRead(p);
    ProductHasNoPlus(p);
    hide Atoi, Decimal;
    if |p| > 1 {
      var rest := p[1..];
      ProductFitsExactlyWhen(rest);
      ProductRead(rest);
      FindWritten(Decimal(p[0]), '*', ShowProduct(rest));
      OneFactor(rest);
    }
  }

  /** A single factor has no sign of multiplication; more have. */
  lemma OneFactor(p: Product)
    ensures Find(ShowProduct(p), '*').Some? <==> |p| > 1
  {
    ProductHasNoPlus(p);
    hide Decimal;
    if |p| > 1 {
      FindWritten(Decimal(p[0]), '*', ShowProduct(p[1..]));
    }
  }

  lemma OneProduct(e: Sum)
    ensures Find(Show(e), '+').Some? <==> |e| > 1
  {
    ProductHasNoPlus(e[0]);
    hide ShowProduct;
    if |e| > 1 {
      FindWritten(ShowProduct(e[0]), '+', Show(e[1..]));
    }
  }

  /**
   Evaluating an expression overflows nowhere, if and only if in each of its products every product
   of the last factors fits an int, and so does the value.
   */
  lemma {:induction false} NoOverflowExactlyWhen(e: Sum)
    ensures ComputFits(Show(e)) <==> (forall p :: p in e ==> EndsFit(p)) && Fits(SumValue(e))
  {
    ProductFitsExactlyWhen(e[0]);
    if |e| == 1 {
      OneProductFits(e);
      hide *;
      assert e[0] in e;
    } else {
      NoOverflowExactlyWhen(e[1..]);
      MoreProductsFit(e);
      hide *;
      assert forall p :: p in e <==> p == e[0] || p in e[1..];
    }
  }

  lemma OneProductFits(e: Sum)
    requires |e| == 1
    ensures e == [e[0]] && SumValue(e) == ProductValue(e[0]) && (ComputFits(Show(e)) <==> MultFits(ShowProduct(e[0])))
    ensures EndsFit(e[0]) ==> Fits(ProductValue(e[0]))
  {
    OneProduct(e);
    EndsFitValue(e[0]);
    hide ShowProduct, EndsFit, MultFits;
  }

  lemma MoreProductsFit(e: Sum)
    requires |e| > 1
    ensures ComputFits(Show(e)) <==> MultFits(ShowProduct(e[0])) && ComputFits(Show(e[1..])) && Fits(SumValue(e))
    ensures Fits(SumValue(e)) ==> Fits(SumValue(e[1..]))
  {
    var rest: Sum := e[1..];
    ProductHasNoPlus(e[0]);
    ExpressionRead(e);
    FindWritten(ShowProduct(e[0]), '+', Show(rest));
    OneProduct(rest);
    OneIsProduct(rest);
    hide ShowProduct, MultFits, StringComput;
  }

  lemma EndsFitValue(p: Product)
    ensures EndsFit(p) ==> Fits(ProductValue(p))
  {
  }

  lemma OneIsProduct(e: Sum)
    ensures |e| == 1 ==> ComputFits(Show(e)) == MultFits(Show(e))
  {
    OneProduct(e);
  }

  /** Without a zero among them it is enough that the product of all factors fits. */
  lemma {:induction false} NoZeroExactlyWhen(p: Product)
    requires 0 !in p
    ensures EndsFit(p) <==> Fits(ProductValue(p))
    ensures ProductValue(p) > 0
  {
    if |p| > 1 {
      NoZeroExactlyWhen(p[1..]);
      assert p[0] in p;
      Grows(p[0], ProductValue(p[1..]));
    }
  }

  lemma Grows(a: nat, b: nat)
    requires a > 0 && b > 0
    ensures a * b >= a && a * b >= b
  {
    Times(a - 1, b);
    Times(a, b - 1);
    assert a * b == (a - 1) * b + b && a * b == a * (b - 1) + a;
  }

  lemma Times(a: nat, b: nat)
    ensures a * b >= 0
  {
  }

  /** With a zero it need not be: the product of the other factors is computed first. */
  lemma ZeroHidesOverflow()
    ensures var p: Product := [0, 65536, 32768]; Fits(ProductValue(p)) && !EndsFit(p)
  {
    var p: Product := [0, 65536, 32768];
    assert p[1..] == [65536, 32768] && p[1..][1..] == [32768];
    assert ProductValue(p[1..]) == 65536 * 32768;
  }
}

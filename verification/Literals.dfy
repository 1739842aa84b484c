/** Configuration values with signs, spaces, leading zeros and text behind the numbers. */
module Literals {
  import opened Bytes
  import opened Expressions

  // ---------- one number ----------

  datatype Sign = NONE | PLUS | MINUS

  /** White space, a sign, zeros and a number, and text that does not begin with a digit. */
  datatype RawLiteral = Literal(space: string, sign: Sign, zeros: nat, n: nat, trail: string)
  {
    predicate Valid()
    {
      && (forall c :: c in space ==> c == ' ' || 9 <= c as int <= 13)
      && (trail != [] ==> !('0' <= trail[0] <= '9'))
    }
  }

  type Literal = l: RawLiteral | l.Valid() witness Literal([], NONE, 0, 0, [])

  function SignText(s: Sign): string
  {
    match s
    case NONE => []
    case PLUS => ['+']
    case MINUS => ['-']
  }

  function Text(l: Literal): string
  {
    l.space + (SignText(l.sign) + (Repeat('0', l.zeros) + (Decimal(l.n) + l.trail)))
  }

  function Value(l: Literal): int { if l.sign == MINUS then 0 - l.n else l.n }

  lemma {:induction false} SpaceSkipped(space: string, s: string)
    requires forall c :: c in space ==> c == ' ' || 9 <= c as int <= 13
    ensures Atoi(space + s) == Atoi(s)
  {
    if space == [] {
      assert space + s == s;
    } else {
      assert (space + s)[1..] == space[1..] + s;
      assert space[0] in space && forall c :: c in space[1..] ==> c in space;
      SpaceSkipped(space[1..], s);
    }
  }

  lemma {:induction false} ZerosRead(k: nat, s: string)
    ensures Digits(Repeat('0', k) + s, 0) == Digits(s, 0)
  {
    if k == 0 {
      assert Repeat('0', 0) + s == s;
    } else {
      assert (Repeat('0', k) + s)[1..] == Repeat('0', k - 1) + s;
      ZerosRead(k - 1, s);
    }
  }

  lemma DigitsEnd(trail: string, n: int)
    requires trail != [] ==> !('0' <= trail[0] <= '9')
    ensures Digits(trail, n) == n
  {
  }

  /** The digits of a literal spell its number. */
  lemma NumberRead(l: Literal)
    ensures var s := Repeat('0', l.zeros) + (Decimal(l.n) + l.trail);
      Digits(s, 0) == l.n && s != [] && IsDigit(s[0])
  {
    ZerosRead(l.zeros, Decimal(l.n) + l.trail);
    DigitsContinue(Decimal(l.n), l.trail, 0);
    DigitsOfDecimal(l.n);
    DigitsEnd(l.trail, l.n);
    assert Decimal(l.n)[0] in Decimal(l.n);
  }

  /** atoi reads the number and its sign, and ignores what is around them. */
  lemma AtoiOfLiteral(l: Literal)
    ensures Atoi(Text(l)) == Value(l)
  {
    var s := Repeat('0', l.zeros) + (Decimal(l.n) + l.trail);
    NumberRead(l);
    SpaceSkipped(l.space, SignText(l.sign) + s);
    hide Digits;
    assert l.sign == NONE ==> SignText(l.sign) + s == s;
    assert l.sign != NONE ==> (SignText(l.sign) + s)[1..] == s;
  }

  /** Text without a number is zero. */
  lemma NoNumber(space: string, trail: string)
    requires forall c :: c in space ==> c == ' ' || 9 <= c as int <= 13
    requires trail == [] || (!IsDigit(trail[0]) && !IsSpace(trail[0]) && trail[0] != '-' && trail[0] != '+')
    ensures Atoi(space + trail) == 0
  {
    SpaceSkipped(space, trail);
  }

  // ---------- sums of products ----------

  /** A factor: a literal without plus sign and without another operator in its text. */
  predicate Plain(l: Literal) { l.sign != PLUS && '+' !in l.trail && '*' !in l.trail }

  type Factor = l: Literal | Plain(l) witness Literal([], NONE, 0, 0, [])

  type Factors = p: seq<Factor> | p != [] witness [Literal([], NONE, 0, 0, [])]

  type Terms = e: seq<Factors> | e != [] witness [JustOne()]

  function JustOne(): Factors { [Literal([], NONE, 0, 1, [])] }

  function FactorsText(p: Factors): string
  {
    if |p| == 1 then Text(p[0]) else Text(p[0]) + ['*'] + FactorsText(p[1..])
  }

  function FactorsValue(p: Factors): int
  {
    if |p| == 1 then Value(p[0]) else Value(p[0]) * FactorsValue(p[1..])
  }

  function TermsText(e: Terms): string
  {
    if |e| == 1 then FactorsText(e[0]) else FactorsText(e[0]) + ['+'] + TermsText(e[1..])
  }

  function TermsValue(e: Terms): int
  {
    if |e| == 1 then FactorsValue(e[0]) else FactorsValue(e[0]) + TermsValue(e[1..])
  }

  lemma NoOperator(l: Factor)
    ensures '+' !in Text(l) && '*' !in Text(l)
  {
    assert forall c :: c in Decimal(l.n) ==> IsDigit(c);
  }

  lemma {:induction false} NoPlusInFactors(p: Factors)
    ensures '+' !in FactorsText(p)
    ensures |p| == 1 ==> '*' !in FactorsText(p)
  {
    NoOperator(p[0]);
    hide Text;
    if |p| > 1 {
      NoPlusInFactors(p[1..]);
    }
  }

  lemma {:induction false} FactorsRead(p: Factors)
    ensures StringMult(FactorsText(p)) == FactorsValue(p)
  {
    AtoiOfLiteral(p[0]);
    NoOperator(p[0]);
    hide Text, Atoi, Value;
    if |p| > 1 {
      FactorsRead(p[1..]);
      FindWritten(Text(p[0]), '*', FactorsText(p[1..]));
      StarInMore(p[1..]);
    }
  }

  lemma StarInMore(p: Factors)
    ensures |p| == 1 ==> FactorsText(p) == Text(p[0]) && '*' !in FactorsText(p)
    ensures |p| > 1 ==> '*' in FactorsText(p)
  {
    NoOperator(p[0]);
    hide Text;
  }

  lemma ComputWithoutPlus(s: string)
    requires '+' !in s
    ensures StringComput(s) == StringMult(s)
  {
    hide StringMult;
  }

  lemma PlusInMore(e: Terms)
    ensures |e| == 1 ==> TermsText(e) == FactorsText(e[0]) && StringComput(TermsText(e)) == StringMult(TermsText(e))
    ensures Find(TermsText(e), '+').Some? <==> |e| > 1
  {
    NoPlusInFactors(e[0]);
    hide FactorsText, StringMult, StringComput, Find;
    if |e| > 1 {
      PlusBetween(FactorsText(e[0]), TermsText(e[1..]));
    } else {
      ComputWithoutPlus(FactorsText(e[0]));
    }
  }

  lemma PlusBetween(s: string, t: string)
    ensures '+' in s + ['+'] + t
  {
    assert (s + ['+'] + t)[|s|] == '+';
  }

  /** Any sum of products of such numbers is evaluated with products before sums. */
  lemma {:induction false} TermsRead(e: Terms)
    ensures StringComput(TermsText(e)) == TermsValue(e)
  {
    FactorsRead(e[0]);
    NoPlusInFactors(e[0]);
    PlusInMore(e);
    hide FactorsText, StringMult, FactorsValue;
    if |e| > 1 {
      TermsRead(e[1..]);
      PlusInMore(e[1..]);
      FindWritten(FactorsText(e[0]), '+', TermsText(e[1..]));
      var s, rest := TermsText(e), TermsText(e[1..]);
      assert s == FactorsText(e[0]) + ['+'] + rest;
      ComputAt(s, |FactorsText(e[0])|);
    }
  }

  lemma ComputAt(s: string, i: nat)
    requires Find(s, '+') == Some(i)
    ensures i < |s|
    ensures var rest := s[i + 1..];
      StringComput(s)
      == StringMult(s[..i]) + if Find(rest, '+').Some? then StringComput(rest) else StringMult(rest)
  {
    hide Find, StringMult;
  }
}

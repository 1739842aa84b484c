/** Template replacement: %patterns in names, paths and log lines. */
module StringReplace {

  datatype Place = Nowhere | Found(at: nat)

  predicate Occurs(s: string, pattern: string, i: nat)
  {
    i + |pattern| <= |s| && s[i..i + |pattern|] == pattern
  }

  /** The first occurrence from position i on. */
  function FirstFrom(s: string, pattern: string, i: nat): (p: Place)
    ensures p.Found? ==> i <= p.at && Occurs(s, pattern, p.at) && forall j :: i <= j < p.at ==> !Occurs(s, pattern, j)
    ensures p.Nowhere? ==> forall j :: i <= j ==> !Occurs(s, pattern, j)
    decreases |s| - i
  {
    if i + |pattern| > |s| then Nowhere
    else if Occurs(s, pattern, i) then Found(i)
    else FirstFrom(s, pattern, i + 1)
  }

  function First(s: string, pattern: string): Place { FirstFrom(s, pattern, 0) }

  function ReplacedAt(s: string, pattern: string, replacement: string, i: nat): string
    requires i + |pattern| <= |s|
  {
    s[..i] + replacement + s[i + |pattern|..]
  }

  // ---------- the loop ----------

  function Count(c: char, s: string): nat
  {
    if s == [] then 0 else (if s[0] == c then 1 else 0) + Count(c, s[1..])
  }

  lemma {:induction false} CountAppend(c: char, a: string, b: string)
    ensures Count(c, a + b) == Count(c, a) + Count(c, b)
  {
    if a == [] {
      assert a + b == b;
    } else {
      assert (a + b)[1..] == a[1..] + b;
      CountAppend(c, a[1..], b);
    }
  }

  lemma {:induction false} CountNone(c: char, s: string)
    ensures Count(c, s) == 0 <==> c !in s
  {
    if s != [] {
      CountNone(c, s[1..]);
    }
  }

  /** Some character occurs more often in the pattern than in the replacement. */
  ghost predicate Lighter(pattern: string, replacement: string)
  {
    exists c :: Count(c, pattern) > Count(c, replacement)
  }

  ghost function Mark(pattern: string, replacement: string): (c: char)
    requires Lighter(pattern, replacement)
    ensures Count(c, pattern) > Count(c, replacement)
  {
    var c :| Count(c, pattern) > Count(c, replacement);
    c
  }

  /** Each replacement takes away some of that character. */
  lemma MarksDecrease(c: char, s: string, pattern: string, replacement: string, i: nat)
    requires Count(c, pattern) > Count(c, replacement) && Occurs(s, pattern, i)
    ensures Count(c, ReplacedAt(s, pattern, replacement, i)) < Count(c, s)
  {
    var a, b := s[..i], s[i + |pattern|..];
    assert s == a + (pattern + b);
    assert ReplacedAt(s, pattern, replacement, i) == a + (replacement + b);
    CountAppend(c, a, pattern + b);
    CountAppend(c, pattern, b);
    CountAppend(c, a, replacement + b);
    CountAppend(c, replacement, b);
  }

  /** What the loop computes: the first occurrence is replaced until there is none. */
  ghost function Replaced(s: string, pattern: string, replacement: string): string
    requires Lighter(pattern, replacement)
    decreases Count(Mark(pattern, replacement), s)
  {
    match First(s, pattern)
    case Nowhere => s
    case Found(i) =>
      MarksDecrease(Mark(pattern, replacement), s, pattern, replacement, i);
      Replaced(ReplacedAt(s, pattern, replacement, i), pattern, replacement)
  }

  lemma {:induction false} NoneLeft(s: string, pattern: string, replacement: string)
    requires Lighter(pattern, replacement)
    ensures First(Replaced(s, pattern, replacement), pattern).Nowhere?
    decreases Count(Mark(pattern, replacement), s)
  {
    match First(s, pattern)
    case Nowhere =>
    case Found(i) =>
      MarksDecrease(Mark(pattern, replacement), s, pattern, replacement, i);
      NoneLeft(ReplacedAt(s, pattern, replacement, i), pattern, replacement);
  }

  /** A shorter replacement is always lighter. */
  lemma {:induction false} ShorterIsLighter(pattern: string, replacement: string)
    requires |replacement| < |pattern|
    ensures Lighter(pattern, replacement)
    decreases |pattern|
  {
    var c := pattern[0];
    CountNone(c, replacement);
    if c in replacement {
      var i :| 0 <= i < |replacement| && replacement[i] == c;
      var rest := replacement[..i] + replacement[i + 1..];
      ShorterIsLighter(pattern[1..], rest);
      var d :| Count(d, pattern[1..]) > Count(d, rest);
      OneTakenOut(d, replacement, i);
      assert Count(d, pattern) > Count(d, replacement);
    } else {
      assert Count(c, pattern) > Count(c, replacement);
    }
  }

  lemma OneTakenOut(d: char, s: string, i: nat)
    requires i < |s|
    ensures Count(d, s) == Count(d, s[..i] + s[i + 1..]) + if s[i] == d then 1 else 0
  {
    assert s == s[..i] + ([s[i]] + s[i + 1..]);
    CountAppend(d, s[..i], [s[i]] + s[i + 1..]);
    CountAppend(d, [s[i]], s[i + 1..]);
    CountAppend(d, s[..i], s[i + 1..]);
    assert [s[i]][1..] == [];
  }

  /** The string after n rounds of the loop. */
  function Rounds(s: string, pattern: string, replacement: string, n: nat): string
  {
    if n == 0 then s
    else
      var t := Rounds(s, pattern, replacement, n - 1);
      match First(t, pattern)
      case Nowhere => t
      case Found(i) => ReplacedAt(t, pattern, replacement, i)
  }

  lemma StillOccurs(t: string, pattern: string, replacement: string)
    requires First(t, pattern).Found? && First(replacement, pattern).Found?
    ensures First(ReplacedAt(t, pattern, replacement, First(t, pattern).at), pattern).Found?
  {
    var i, k := First(t, pattern).at, First(replacement, pattern).at;
    var u := ReplacedAt(t, pattern, replacement, i);
    OccursInside(t[..i], replacement, t[i + |pattern|..], pattern, k);
    assert Occurs(u, pattern, i + k);
  }

  lemma OccursInside(a: string, b: string, c: string, pattern: string, k: nat)
    requires Occurs(b, pattern, k)
    ensures Occurs(a + b + c, pattern, |a| + k)
  {
    assert (a + b + c)[|a| + k..|a| + k + |pattern|] == b[k..k + |pattern|];
  }

  /** A replacement that holds the pattern leaves an occurrence after any number of rounds: the loop does not end. */
  lemma {:induction false} NeverDone(s: string, pattern: string, replacement: string, n: nat)
    requires First(s, pattern).Found? && First(replacement, pattern).Found?
    ensures First(Rounds(s, pattern, replacement, n), pattern).Found?
  {
    if n > 0 {
      NeverDone(s, pattern, replacement, n - 1);
      StillOccurs(Rounds(s, pattern, replacement, n - 1), pattern, replacement);
    }
  }

  // ---------- replacing all occurrences at once ----------

  /** Every occurrence replaced, in one pass over s. */
  function AllReplaced(s: string, pattern: string, replacement: string): string
    requires pattern != []
  {
    if s == [] then []
    else if Occurs(s, pattern, 0) then replacement + AllReplaced(s[|pattern|..], pattern, replacement)
    else [s[0]] + AllReplaced(s[1..], pattern, replacement)
  }

  lemma OccursShifted(s: string, pattern: string, j: nat)
    requires s != []
    ensures Occurs(s[1..], pattern, j) <==> Occurs(s, pattern, j + 1)
  {
    if j + 1 + |pattern| <= |s| {
      assert s[j + 1..j + 1 + |pattern|] == s[1..][j..j + |pattern|];
    }
  }

  /** A prefix in which no occurrence starts is copied. */
  lemma {:induction false} PrefixCopied(a: string, x: string, pattern: string, replacement: string)
    requires pattern != [] && forall j :: 0 <= j < |a| ==> !Occurs(a + x, pattern, j)
    ensures AllReplaced(a + x, pattern, replacement) == a + AllReplaced(x, pattern, replacement)
    decreases |a|
  {
    if a == [] {
      assert a + x == x;
    } else {
      var rest := a[1..] + x;
      assert (a + x)[1..] == rest;
      forall j | 0 <= j < |a[1..]| ensures !Occurs(rest, pattern, j) {
        OccursShifted(a + x, pattern, j);
      }
      PrefixCopied(a[1..], x, pattern, replacement);
      assert a == [a[0]] + a[1..];
    }
  }

  /** The pattern's first character occurs only there, and not in the replacement. */
  predicate Marked(pattern: string, replacement: string)
  {
    pattern != [] && pattern[0] !in pattern[1..] && pattern[0] !in replacement
  }

  lemma MarkedIsLighter(pattern: string, replacement: string)
    requires Marked(pattern, replacement)
    ensures Lighter(pattern, replacement)
  {
    CountNone(pattern[0], replacement);
    assert Count(pattern[0], pattern) > Count(pattern[0], replacement);
  }

  lemma CharOf(s: string, pattern: string, j: nat, k: nat)
    requires Occurs(s, pattern, j) && k < |pattern|
    ensures s[j + k] == pattern[k]
  {
    assert s[j + k] == s[j..j + |pattern|][k];
  }

  lemma DiffersAt(s: string, pattern: string, j: nat, k: nat)
    requires k < |pattern| && j + k < |s| && s[j + k] != pattern[k]
    ensures !Occurs(s, pattern, j)
  {
    if Occurs(s, pattern, j) {
      CharOf(s, pattern, j, k);
    }
  }

  lemma SharedPrefix(s: string, t: string, n: nat, pattern: string, j: nat)
    requires n <= |s| && n <= |t| && s[..n] == t[..n] && j + |pattern| <= n
    ensures Occurs(s, pattern, j) <==> Occurs(t, pattern, j)
  {
    assert s[j..j + |pattern|] == s[..n][j..j + |pattern|];
    assert t[j..j + |pattern|] == t[..n][j..j + |pattern|];
  }

  /** No occurrence starts in characters that lack the mark. */
  lemma NoneInUnmarked(a: string, x: string, pattern: string)
    requires pattern != [] && pattern[0] !in a
    ensures forall j :: 0 <= j < |a| ==> !Occurs(a + x, pattern, j)
  {
    forall j | 0 <= j < |a| ensures !Occurs(a + x, pattern, j) {
      assert (a + x)[j] == a[j];
      DiffersAt(a + x, pattern, j, 0);
    }
  }

  lemma UnmarkedCopied(a: string, x: string, pattern: string, replacement: string)
    requires pattern != [] && pattern[0] !in a
    ensures AllReplaced(a + x, pattern, replacement) == a + AllReplaced(x, pattern, replacement)
  {
    NoneInUnmarked(a, x, pattern);
    PrefixCopied(a, x, pattern, replacement);
  }

  lemma FirstReplaced(pattern: string, b: string, replacement: string)
    requires pattern != []
    ensures AllReplaced(pattern + b, pattern, replacement) == replacement + AllReplaced(b, pattern, replacement)
  {
    assert (pattern + b)[..|pattern|] == pattern && (pattern + b)[|pattern|..] == b;
    assert Occurs(pattern + b, pattern, 0);
  }

  /** The pass up to and including the first occurrence. */
  lemma PassFromFirst(s: string, pattern: string, replacement: string, i: nat)
    requires pattern != [] && First(s, pattern) == Found(i)
    ensures AllReplaced(s, pattern, replacement)
      == s[..i] + (replacement + AllReplaced(s[i + |pattern|..], pattern, replacement))
  {
    var a, b := s[..i], s[i + |pattern|..];
    assert s == a + (pattern + b);
    PrefixCopied(a, pattern + b, pattern, replacement);
    FirstReplaced(pattern, b, replacement);
  }

  lemma NothingToReplace(s: string, pattern: string, replacement: string)
    requires pattern != [] && First(s, pattern).Nowhere?
    ensures AllReplaced(s, pattern, replacement) == s
  {
    assert s + [] == s;
    PrefixCopied(s, [], pattern, replacement);
  }

  /** What follows the mark in b is copied by the pass, as far as it is part of one pattern. */
  lemma TailCopied(b: string, n: nat, pattern: string, replacement: string)
    requires Marked(pattern, replacement) && n <= |b| && pattern[0] !in b[..n]
    ensures n <= |AllReplaced(b, pattern, replacement)| && AllReplaced(b, pattern, replacement)[..n] == b[..n]
  {
    assert b == b[..n] + b[n..];
    UnmarkedCopied(b[..n], b[n..], pattern, replacement);
  }

  /** An occurrence that a replacement brings together is there in the result of the pass too. */
  lemma BroughtTogether(a: string, b: string, pattern: string, replacement: string, j: nat)
    requires Marked(pattern, replacement) && j < |a| < j + |pattern|
    requires Occurs(a + (replacement + b), pattern, j)
    ensures Occurs(a + (replacement + AllReplaced(b, pattern, replacement)), pattern, j)
  {
    var t := a + (replacement + b);
    var done := AllReplaced(b, pattern, replacement);
    var u := a + (replacement + done);
    var m := |a| + |replacement|;
    if j + |pattern| <= m {
      assert t[..m] == u[..m];
      SharedPrefix(t, u, m, pattern, j);
    } else {
      var n := j + |pattern| - m;
      forall x | 0 <= x < n ensures b[x] != pattern[0] {
        CharOf(t, pattern, j, m + x - j);
        assert t[m + x] == b[x];
        assert pattern[m + x - j] == pattern[1..][m + x - j - 1];
      }
      TailCopied(b, n, pattern, replacement);
      assert done == done[..n] + done[n..] && b == b[..n] + b[n..];
      assert t[..m + n] == u[..m + n];
      SharedPrefix(t, u, m + n, pattern, j);
    }
  }

  /** Replacing the first occurrence changes nothing for the pass, if the pass leaves no occurrence. */
  lemma PassUnchanged(s: string, pattern: string, replacement: string, i: nat)
    requires Marked(pattern, replacement) && First(s, pattern) == Found(i)
    requires First(AllReplaced(s, pattern, replacement), pattern).Nowhere?
    ensures AllReplaced(ReplacedAt(s, pattern, replacement, i), pattern, replacement)
      == AllReplaced(s, pattern, replacement)
  {
    var a, b := s[..i], s[i + |pattern|..];
    var t := a + (replacement + b);
    assert ReplacedAt(s, pattern, replacement, i) == t;
    PassFromFirst(s, pattern, replacement, i);
    forall j | 0 <= j < |a| ensures !Occurs(t, pattern, j) {
      if j + |pattern| <= |a| {
        assert t[..|a|] == s[..|a|];
        SharedPrefix(s, t, |a|, pattern, j);
      } else if Occurs(t, pattern, j) {
        BroughtTogether(a, b, pattern, replacement, j);
      }
    }
    PrefixCopied(a, replacement + b, pattern, replacement);
    UnmarkedCopied(replacement, b, pattern, replacement);
  }

  /** The loop replaces all occurrences at once, if and only if doing so leaves no occurrence. */
  lemma {:induction false} SimultaneousExactlyWhen(s: string, pattern: string, replacement: string)
    requires Marked(pattern, replacement)
    ensures Lighter(pattern, replacement)
    ensures Replaced(s, pattern, replacement) == AllReplaced(s, pattern, replacement)
       <==> First(AllReplaced(s, pattern, replacement), pattern).Nowhere?
    decreases Count(pattern[0], s)
  {
    MarkedIsLighter(pattern, replacement);
    NoneLeft(s, pattern, replacement);
    match First(s, pattern)
    case Nowhere =>
      NothingToReplace(s, pattern, replacement);
    case Found(i) =>
      CountNone(pattern[0], replacement);
      MarksDecrease(pattern[0], s, pattern, replacement, i);
      var t := ReplacedAt(s, pattern, replacement, i);
      if First(AllReplaced(s, pattern, replacement), pattern).Nowhere? {
        PassUnchanged(s, pattern, replacement, i);
        SimultaneousExactlyWhen(t, pattern, replacement);
      }
  }

  // ---------- for which replacements this holds of every source ----------

  /** The replacement and the end of the pattern from k on agree as far as both go. */
  predicate Overlaps(pattern: string, replacement: string, k: nat)
    requires k <= |pattern|
  {
    pattern[k..] <= replacement || replacement <= pattern[k..]
  }

  /** An occurrence left by the pass is made of the end of a literal piece and an overlapping replacement. */
  lemma {:induction false} LeftOverOverlaps(s: string, pattern: string, replacement: string, j: nat) returns (k: nat)
    requires Marked(pattern, replacement) && Occurs(AllReplaced(s, pattern, replacement), pattern, j)
    ensures 0 < k < |pattern| && Overlaps(pattern, replacement, k)
    decreases |s|
  {
    var all := AllReplaced(s, pattern, replacement);
    if Occurs(s, pattern, 0) {
      var rest := AllReplaced(s[|pattern|..], pattern, replacement);
      NoneInUnmarked(replacement, rest, pattern);
      assert all[j..j + |pattern|] == rest[j - |replacement|..j - |replacement| + |pattern|];
      k := LeftOverOverlaps(s[|pattern|..], pattern, replacement, j - |replacement|);
    } else if j > 0 {
      OccursShifted(all, pattern, j - 1);
      assert all[1..] == AllReplaced(s[1..], pattern, replacement);
      k := LeftOverOverlaps(s[1..], pattern, replacement, j - 1);
    } else {
      k := FirstPieceOverlaps(s, pattern, replacement);
    }
  }

  lemma FirstPieceOverlaps(s: string, pattern: string, replacement: string) returns (k: nat)
    requires Marked(pattern, replacement) && !Occurs(s, pattern, 0)
    requires Occurs(AllReplaced(s, pattern, replacement), pattern, 0)
    ensures 0 < k < |pattern| && Overlaps(pattern, replacement, k)
  {
    var all := AllReplaced(s, pattern, replacement);
    if First(s, pattern).Nowhere? {
      NothingToReplace(s, pattern, replacement);
    }
    k := First(s, pattern).at;
    PassFromFirst(s, pattern, replacement, k);
    if |pattern| <= k {
      assert all[..k] == s[..k];
      SharedPrefix(s, all, k, pattern, 0);
    }
    var tail := replacement + AllReplaced(s[k + |pattern|..], pattern, replacement);
    assert pattern[k..] == all[..|pattern|][k..] == tail[..|pattern| - k];
    if |pattern| - k <= |replacement| {
      assert pattern[k..] == replacement[..|pattern| - k];
    } else {
      assert pattern[k..][..|replacement|] == replacement;
    }
  }

  /** A source for which an overlap leaves an occurrence. */
  lemma OverlapLeavesOne(pattern: string, replacement: string, k: nat) returns (s: string)
    requires Marked(pattern, replacement) && 0 < k < |pattern| && Overlaps(pattern, replacement, k)
    ensures First(AllReplaced(s, pattern, replacement), pattern).Found?
  {
    var x, y := pattern[..k], pattern[k..];
    var z := if y <= replacement then [] else y[|replacement|..];
    s := x + (pattern + z);
    assert pattern == x + y;
    NoOccurrenceBefore(x, z, pattern, replacement);
    PrefixCopied(x, pattern + z, pattern, replacement);
    FirstReplaced(pattern, z, replacement);
    assert z + [] == z;
    UnmarkedTail(pattern, k, z, replacement);
    var all := x + (replacement + z);
    assert AllReplaced(s, pattern, replacement) == all;
    if y <= replacement {
      assert all[..|pattern|] == x + replacement[..|y|] == pattern;
    } else {
      assert replacement + z == y;
    }
    assert Occurs(all, pattern, 0);
  }

  lemma UnmarkedTail(pattern: string, k: nat, z: string, replacement: string)
    requires Marked(pattern, replacement) && 0 < k < |pattern|
    requires z == [] || (replacement <= pattern[k..] && z == pattern[k..][|replacement|..])
    ensures AllReplaced(z, pattern, replacement) == z
  {
    forall i | 0 <= i < |z| ensures z[i] != pattern[0] {
      assert z[i] == pattern[1..][k - 1 + |replacement| + i];
    }
    assert z + [] == z;
    UnmarkedCopied(z, [], pattern, replacement);
  }

  lemma NoOccurrenceBefore(x: string, z: string, pattern: string, replacement: string)
    requires Marked(pattern, replacement) && 0 < |x| < |pattern| && x == pattern[..|x|]
    ensures forall j :: 0 <= j < |x| ==> !Occurs(x + (pattern + z), pattern, j)
  {
    var s := x + (pattern + z);
    forall j | 0 <= j < |x| ensures !Occurs(s, pattern, j) {
      if j == 0 {
        assert s[|x|] == pattern[0] != pattern[|x|] by { assert pattern[|x|] == pattern[1..][|x| - 1]; }
        DiffersAt(s, pattern, 0, |x|);
      } else {
        assert s[j] == x[j] == pattern[1..][j - 1];
        DiffersAt(s, pattern, j, 0);
      }
    }
  }

  /**
   The loop replaces all occurrences at once in every source, if and only if the replacement
   overlaps with no proper end of the pattern.
   */
  lemma AlwaysSimultaneousExactlyWhen(pattern: string, replacement: string)
    requires Marked(pattern, replacement)
    ensures Lighter(pattern, replacement)
    ensures (forall s :: Replaced(s, pattern, replacement) == AllReplaced(s, pattern, replacement))
       <==> (forall k: nat :: 0 < k < |pattern| ==> !Overlaps(pattern, replacement, k))
  {
    MarkedIsLighter(pattern, replacement);
    hide Overlaps, AllReplaced, Marked;
    if k: nat :| 0 < k < |pattern| && Overlaps(pattern, replacement, k) {
      var s := OverlapLeavesOne(pattern, replacement, k);
      SimultaneousExactlyWhen(s, pattern, replacement);
      assert Replaced(s, pattern, replacement) != AllReplaced(s, pattern, replacement);
    } else {
      forall s ensures Replaced(s, pattern, replacement) == AllReplaced(s, pattern, replacement) {
        SimultaneousExactlyWhen(s, pattern, replacement);
        var all := AllReplaced(s, pattern, replacement);
        if First(all, pattern).Found? {
          var k := LeftOverOverlaps(s, pattern, replacement, First(all, pattern).at);
        }
      }
    }
  }

  /** A replacement that is not empty and shares no character with the pattern overlaps nowhere. */
  lemma ApartNeverOverlaps(pattern: string, replacement: string)
    requires replacement != [] && forall c :: c in replacement ==> c !in pattern
    ensures forall k: nat :: 0 < k < |pattern| ==> !Overlaps(pattern, replacement, k)
  {
    forall k: nat | 0 < k < |pattern| ensures !Overlaps(pattern, replacement, k) {
      assert pattern[k] in pattern && replacement[0] in replacement;
      assert pattern[k..][0] == pattern[k];
    }
  }

  /** With an empty replacement of a longer pattern there is always a source in which it does something else. */
  lemma EmptyReplacementJoins(pattern: string) returns (s: string)
    requires |pattern| >= 2 && Marked(pattern, "")
    ensures Lighter(pattern, "") && Replaced(s, pattern, "") != AllReplaced(s, pattern, "")
  {
    assert Overlaps(pattern, "", 1);
    s := OverlapLeavesOne(pattern, "", 1);
    SimultaneousExactlyWhen(s, pattern, "");
  }

  // ---------- C strings ----------

  /** The characters before the first NUL. */
  function CString(a: seq<char>): (s: string)
    ensures |s| <= |a| && '\0' !in s
  {
    if a == [] || a[0] == '\0' then [] else [a[0]] + CString(a[1..])
  }

  lemma {:induction false} CStringEnds(s: string, rest: seq<char>)
    requires '\0' !in s
    ensures CString(s + ['\0'] + rest) == s
  {
    if s != [] {
      assert (s + ['\0'] + rest)[1..] == s[1..] + ['\0'] + rest;
      CStringEnds(s[1..], rest);
    }
  }

  /** strstr: the first occurrence. */
  method Strstr(s: string, pattern: string) returns (p: Place)
    ensures p == First(s, pattern)
  {
    var i: nat := 0;
    while i + |pattern| <= |s|
      invariant First(s, pattern) == FirstFrom(s, pattern, i)
    {
      if s[i..i + |pattern|] == pattern {
        return Found(i);
      }
      i := i + 1;
    }
    p := Nowhere;
  }

  /** Replace in a copy of the source until no pattern is left. */
  method ReplaceInCopy(source: string, toreplace: string, replacement: string) returns (temp: string, size: nat)
    requires Lighter(toreplace, replacement) && '\0' !in source && '\0' !in replacement
    ensures temp == Replaced(source, toreplace, replacement) && size == |temp| + 1 && '\0' !in temp
  {
    temp, size := source, |source| + 1;
    var p := Strstr(temp, toreplace);
    while p.Found?
      invariant p == First(temp, toreplace) && size == |temp| + 1 && '\0' !in temp
      invariant Replaced(temp, toreplace, replacement) == Replaced(source, toreplace, replacement)
      decreases Count(Mark(toreplace, replacement), temp)
    {
      MarksDecrease(Mark(toreplace, replacement), temp, toreplace, replacement, p.at);
      var next := temp[..p.at] + replacement + temp[p.at + |toreplace|..];
      size := size + |replacement| - |toreplace|;
      temp := next;
      p := Strstr(temp, toreplace);
    }
  }

  /** strcpy, of the first n characters and a NUL. */
  method Store(dest: array<char>, s: string, n: nat)
    requires n <= |s| && n < dest.Length && '\0' !in s
    modifies dest
    ensures CString(dest[..]) == s[..n]
  {
    forall i | 0 <= i < n {
      dest[i] := s[i];
    }
    dest[n] := '\0';
    assert dest[..] == s[..n] + ['\0'] + dest[n + 1..];
    CStringEnds(s[..n], dest[n + 1..]);
  }

  /** The buffer after the call, and how long it is said to be; it grows only when it may. */
  method MumuStringReplace(source: array<char>, length: nat, canRealloc: bool, toreplace: string, replacement: string)
    returns (result: array<char>, newLength: nat)
    requires 0 < length <= source.Length && Lighter(toreplace, replacement) && '\0' !in replacement
    modifies source
    ensures First(old(CString(source[..])), toreplace).Nowhere? ==>
      result == source && newLength == length && source[..] == old(source[..])
    ensures First(old(CString(source[..])), toreplace).Found? ==>
      var r := Replaced(old(CString(source[..])), toreplace, replacement);
      if |r| < length then result == source && newLength == length && CString(result[..]) == r
      else if canRealloc then fresh(result) && newLength == result.Length == |r| + 1 && CString(result[..]) == r
      else result == source && newLength == length && CString(result[..]) == r[..length - 1]
  {
    result, newLength := source, length;
    var s := CString(source[..]);
    var p := Strstr(s, toreplace);
    if p.Nowhere? {
      return;
    }
    var temp, size := ReplaceInCopy(s, toreplace, replacement);
    if canRealloc {
      if size > length {
        result := new char[size](_ => ' ');
        newLength := size;
      }
      Store(result, temp, |temp|);
      assert temp[..|temp|] == temp;
    } else if size <= length {
      Store(source, temp, |temp|);
      assert temp[..|temp|] == temp;
    } else {
      Store(source, temp, length - 1);
    }
  }
}

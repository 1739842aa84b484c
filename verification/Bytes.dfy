/** Bytes, byte sequences and the few sequence facts every other module leans on. */
module Bytes {

  type byte = x: int | 0 <= x < 256

  datatype Option<+T> = None | Some(value: T)

  /** The concatenation of a list of byte strings. */
  function Flatten<T>(parts: seq<seq<T>>): (all: seq<T>)
  {
    if parts == [] then [] else parts[0] + Flatten(parts[1..])
  }

  /** The added length of a list of byte strings. */
  function TotalLength<T>(parts: seq<seq<T>>): nat
  {
    if parts == [] then 0 else |parts[0]| + TotalLength(parts[1..])
  }

  function Repeat<T>(x: T, n: nat): (s: seq<T>)
    ensures |s| == n && forall i :: 0 <= i < n ==> s[i] == x
  {
    seq(n, _ => x)
  }

  function Min(a: int, b: int): int { if a < b then a else b }

  lemma {:induction false} FlattenAppend<T>(a: seq<seq<T>>, b: seq<seq<T>>)
    ensures Flatten(a + b) == Flatten(a) + Flatten(b)
    ensures TotalLength(a + b) == TotalLength(a) + TotalLength(b)
  {
    if a == [] {
      assert a + b == b;
    } else {
      assert (a + b)[1..] == a[1..] + b;
      FlattenAppend(a[1..], b);
    }
  }

  lemma {:induction false} FlattenLength<T>(parts: seq<seq<T>>)
    ensures |Flatten(parts)| == TotalLength(parts)
  {
    if parts != [] {
      FlattenLength(parts[1..]);
    }
  }

  lemma FlattenSnoc<T>(a: seq<seq<T>>, s: seq<T>)
    ensures Flatten(a + [s]) == Flatten(a) + s
    ensures TotalLength(a + [s]) == TotalLength(a) + |s|
  {
    FlattenAppend(a, [s]);
    assert Flatten([s]) == s + Flatten<T>([]);
    assert TotalLength([s]) == |s| + TotalLength<T>([]);
  }

  lemma Regrouped<T>(a: seq<T>, b: seq<T>, c: seq<T>)
    ensures a + (b + c) == (a + b) + c
  {
  }

  lemma LastApart<T>(s: seq<T>)
    requires s != []
    ensures s == s[..|s| - 1] + [s[|s| - 1]]
  {
  }
}

/** Reference definitions over sequences that the rest of the model is
    specified against: occurrence counts, first occurrences, sums, Python
    slicing `s[:n]`, and subsequences. */
module Seqs {

  /** Number of occurrences of `x` in `s`. */
  function Count<T(==)>(s: seq<T>, x: T): (n: nat)
    ensures n <= |s|
    ensures n > 0 <==> x in s
  {
    if s == [] then 0
    else
      assert s == s[..|s| - 1] + [s[|s| - 1]];
      Count(s[..|s| - 1], x) + (if s[|s| - 1] == x then 1 else 0)
  }

  /** `[x] * k` */
  function Repeat<T>(x: T, k: nat): (r: seq<T>)
    ensures |r| == k
    ensures forall i :: 0 <= i < k ==> r[i] == x
  {
    if k == 0 then [] else Repeat(x, k - 1) + [x]
  }

  /** Some element occurs at least twice. */
  predicate HasRepeat<T(==)>(s: seq<T>) {
    exists x :: x in s && Count(s, x) > 1
  }

  lemma {:induction false} CountAppend<T>(a: seq<T>, b: seq<T>, x: T)
    ensures Count(a + b, x) == Count(a, x) + Count(b, x)
    decreases |b|
  {
    if b != [] {
      var b' := b[..|b| - 1];
      assert (a + b)[..|a + b| - 1] == a + b';
      CountAppend(a, b', x);
    } else {
      assert a + b == a;
    }
  }

  /** Index of the first occurrence of `x` in `s`, or `|s|` when there is none. */
  function IndexOf<T(==)>(s: seq<T>, x: T): (i: nat)
    ensures i <= |s|
    ensures x !in s[..i]
    ensures i < |s| ==> s[i] == x
    ensures i == |s| <==> x !in s
  {
    if s == [] then 0
    else if s[0] == x then 0
    else
      var j := IndexOf(s[1..], x);
      assert s[..1 + j] == [s[0]] + s[1..][..j];
      assert s == [s[0]] + s[1..];
      1 + j
  }

  /** With the distinct elements of `s`, each position is its element's first occurrence. */
  lemma IndexOfDistinct<T>(s: seq<T>, i: int)
    requires NoDuplicates(s)
    requires 0 <= i < |s|
    ensures IndexOf(s, s[i]) == i
  {
  }

  /** In a sequence without repetitions each element occurs once. */
  lemma {:induction false} CountDistinct<T>(s: seq<T>, x: T)
    requires NoDuplicates(s)
    requires x in s
    ensures Count(s, x) == 1
  {
    var prefix := s[..|s| - 1];
    assert s == prefix + [s[|s| - 1]];
    if x != s[|s| - 1] {
      CountDistinct(prefix, x);
    }
  }

  /** `IndexOf` is determined by its postconditions. */
  lemma IndexOfUnique<T>(s: seq<T>, x: T, k: nat)
    requires k <= |s|
    requires x !in s[..k]
    requires k < |s| ==> s[k] == x
    requires k == |s| ==> x !in s
    ensures IndexOf(s, x) == k
  {
  }

  /** Appending an element does not move earlier first occurrences. */
  lemma IndexOfSnoc<T>(s: seq<T>, x: T, w: T)
    requires w in s || w == x
    ensures IndexOf(s + [x], w) == if w in s then IndexOf(s, w) else |s|
  {
    var k := if w in s then IndexOf(s, w) else |s|;
    assert (s + [x])[..k] == s[..k];
    IndexOfUnique(s + [x], w, k);
  }

  predicate NoDuplicates<T(==)>(s: seq<T>) {
    forall i, j :: 0 <= i < j < |s| ==> s[i] != s[j]
  }

  /** Sum of a sequence of naturals, added left to right. */
  function Sum(xs: seq<nat>): (total: nat)
    ensures xs != [] ==> total >= xs[|xs| - 1]
  {
    if xs == [] then 0 else Sum(xs[..|xs| - 1]) + xs[|xs| - 1]
  }

  lemma SumSnoc(xs: seq<nat>, v: nat)
    ensures Sum(xs + [v]) == Sum(xs) + v
  {
    assert (xs + [v])[..|xs|] == xs;
  }

  lemma {:induction false} SumUpdate(xs: seq<nat>, i: int, v: nat)
    requires 0 <= i < |xs|
    ensures Sum(xs[i := v]) + xs[i] == Sum(xs) + v
    decreases |xs|
  {
    var n := |xs|;
    if i < n - 1 {
      assert xs[i := v][..n - 1] == xs[..n - 1][i := v];
      SumUpdate(xs[..n - 1], i, v);
    } else {
      assert xs[i := v][..n - 1] == xs[..n - 1];
    }
  }

  /** Python's slice `s[:n]` for a non-negative `n`. */
  function Take<T>(s: seq<T>, n: nat): (r: seq<T>)
    ensures |r| == if n <= |s| then n else |s|
    ensures r == s[..|r|]
  {
    if n <= |s| then s[..n] else s
  }

  /** `a` can be obtained from `b` by deleting elements. */
  predicate IsSubsequence<T(==)>(a: seq<T>, b: seq<T>)
    decreases |b|
  {
    if b == [] then a == []
    else (a != [] && a[0] == b[0] && IsSubsequence(a[1..], b[1..])) || IsSubsequence(a, b[1..])
  }
}

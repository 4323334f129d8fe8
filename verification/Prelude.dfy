/** Small shared vocabulary: optional values, bounded suffixes, sums and order-preserving subsequences. */
module Prelude {

  datatype Option<+T> = None | Some(value: T)

  datatype Result<+T, +E> = Ok(value: T) | Err(error: E)

  /** The last `n` elements of `s`, or all of them. */
  function LastN<T>(s: seq<T>, n: nat): seq<T> {
    if |s| <= n then s else s[|s| - n..]
  }

  /** Appending to a bounded suffix and trimming it again is the bounded suffix of the longer sequence. */
  lemma LastNAppend<T>(s: seq<T>, x: T, n: nat)
    ensures LastN(LastN(s, n) + [x], n) == LastN(s + [x], n)
  {
    if |s| > n && n > 0 {
      assert s[|s| - n..] + [x] == (s + [x])[|s| - n..];
    }
  }

  function Min(a: int, b: int): int { if a <= b then a else b }

  function Max(a: int, b: int): int { if a >= b then a else b }

  function SumReal(s: seq<real>): real {
    if s == [] then 0.0 else SumReal(s[..|s| - 1]) + s[|s| - 1]
  }

  lemma {:induction false} SumNonNegative(p: seq<real>)
    requires forall k :: 0 <= k < |p| ==> p[k] >= 0.0
    ensures SumReal(p) >= 0.0
  {
    if p != [] {
      SumNonNegative(p[..|p| - 1]);
    }
  }

  ghost predicate IsSqrt(sqrt: real -> real) {
    forall x :: RootOf(sqrt, x)
  }

  ghost predicate RootOf(sqrt: real -> real, x: real) {
    x >= 0.0 ==> sqrt(x) >= 0.0 && sqrt(x) * sqrt(x) == x
  }

  lemma SameSignProduct(a: real, b: real, k: real)
    requires ((a > 0.0 && b > 0.0) || (a < 0.0 && b < 0.0)) && k == a * b
    ensures k > 0.0
  {
  }

  /** `a` arises from `b` by deleting elements. */
  predicate IsSubsequence<T(==)>(a: seq<T>, b: seq<T>)
    decreases |b|
  {
    if a == [] then true
    else if b == [] then false
    else if a[|a| - 1] == b[|b| - 1] then IsSubsequence(a[..|a| - 1], b[..|b| - 1])
    else IsSubsequence(a, b[..|b| - 1])
  }

  lemma {:induction false} SubsequenceDropLast<T>(a: seq<T>, b: seq<T>)
    requires a != [] && IsSubsequence(a, b)
    ensures IsSubsequence(a[..|a| - 1], b)
    decreases |b|, 0
  {
    var n := |b| - 1;
    if a[|a| - 1] == b[n] {
      SubsequenceGrow(a[..|a| - 1], b[..n], b[n]);
      assert b == b[..n] + [b[n]];
    } else {
      SubsequenceDropLast(a, b[..n]);
      SubsequenceGrow(a[..|a| - 1], b[..n], b[n]);
      assert b == b[..n] + [b[n]];
    }
  }

  /** What was deleted from a sequence is deleted from its extensions. */
  lemma {:induction false} SubsequenceGrow<T>(a: seq<T>, b: seq<T>, x: T)
    requires IsSubsequence(a, b)
    ensures IsSubsequence(a, b + [x])
    decreases |b|, 1
  {
    assert (b + [x])[..|b|] == b;
    if a != [] && a[|a| - 1] == x {
      SubsequenceDropLast(a, b);
    }
  }

  lemma SubsequencePush<T>(a: seq<T>, b: seq<T>, x: T)
    requires IsSubsequence(a, b)
    ensures IsSubsequence(a + [x], b + [x])
  {
    assert (a + [x])[..|a|] == a && (b + [x])[..|b|] == b;
  }

  lemma {:induction false} SubsequenceAppend<T>(a: seq<T>, b: seq<T>, c: seq<T>)
    requires IsSubsequence(a, b)
    ensures IsSubsequence(a + c, b + c)
  {
    if c == [] {
      assert a + c == a && b + c == b;
    } else {
      var front, x := c[..|c| - 1], c[|c| - 1];
      SubsequenceAppend(a, b, front);
      SubsequencePush(a + front, b + front, x);
      assert (a + front) + [x] == a + c && (b + front) + [x] == b + c;
    }
  }

  /** Nothing deleted, nothing changed. */
  lemma {:induction false} SubsequenceFull<T>(a: seq<T>, b: seq<T>)
    requires IsSubsequence(a, b)
    ensures |a| <= |b|
    ensures |a| == |b| ==> a == b
    decreases |b|
  {
    if a != [] {
      if a[|a| - 1] == b[|b| - 1] {
        SubsequenceFull(a[..|a| - 1], b[..|b| - 1]);
        assert a == a[..|a| - 1] + [a[|a| - 1]] && b == b[..|b| - 1] + [b[|b| - 1]];
      } else {
        SubsequenceFull(a, b[..|b| - 1]);
      }
    }
  }
}

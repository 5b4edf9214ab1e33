/** Bytes and the few facts about byte sequences that several components share. */
module Octets {
  type Octet = b: int | 0 <= b < 256

  predicate IsPrefix<T(==)>(p: seq<T>, s: seq<T>) {
    |p| <= |s| && s[..|p|] == p
  }

  lemma PrefixTransitive<T>(a: seq<T>, b: seq<T>, c: seq<T>)
    requires IsPrefix(a, b) && IsPrefix(b, c)
    ensures IsPrefix(a, c)
  {}

  lemma PrefixOfConcat<T>(a: seq<T>, b: seq<T>)
    ensures IsPrefix(a, a + b)
  {}

  /** A sequence that is a prefix of `seed` followed by itself repeats `seed` over and over. */
  lemma {:induction false} SelfPrefixIsPeriodic<T>(seed: seq<T>, s: seq<T>, k: nat)
    requires IsPrefix(s, seed + s)
    requires 0 < |seed| && k < |s|
    ensures s[k] == seed[k % |seed|]
    decreases k
  {
    assert s[k] == (seed + s)[..|s|][k] == (seed + s)[k];
    if k < |seed| {
      assert k % |seed| == k;
    } else {
      SelfPrefixIsPeriodic(seed, s, k - |seed|);
      ModMinus(k, |seed|);
    }
  }

  lemma ModMinus(k: int, n: int)
    requires 0 < n <= k
    ensures (k - n) % n == k % n
  {
    var a, b := (k - n) / n, k / n;
    assert k - n == n * a + (k - n) % n;
    assert k == n * b + k % n;
    var d := b - a - 1;
    assert n * d == (k - n) % n - k % n by {
      assert n * d == n * b - n * a - n;
    }
    MultipleSmall(n, d);
  }

  lemma MultipleSmall(n: int, d: int)
    requires -n < n * d < n
    ensures d == 0
  {}
}

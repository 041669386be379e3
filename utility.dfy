/**
 * Model of Utility.ShuffleArray: the seeded, in-place Fisher-Yates shuffle, together with the
 * part of System.Random it relies on.
 */
module Utility {

  /** Int32.MaxValue: System.Random's internal samples lie in [0, IntMax). */
  const IntMax: nat := 0x7FFF_FFFF

  /**
   * The k-th internal sample of a System.Random created with `seed`. The numbers .NET's
   * subtractive generator produces are not modelled: this is a fixed deterministic stand-in
   * with the same range, and no proof below depends on anything but that range.
   */
  function Sample(seed: int, k: nat): (r: nat)
    ensures r < IntMax
  {
    (seed * 1103515245 + k * 12345 + 1) % IntMax
  }

  /**
   * The value Next(lo, hi) returns as the k-th call on a generator seeded with `seed`:
   * the sample scaled into the range [lo, hi), as .NET computes (int)(Sample() * range) + lo.
   */
  function Draw(seed: int, k: nat, lo: int, hi: int): (r: int)
    requires lo <= hi
    ensures lo == hi ==> r == lo
    ensures lo < hi ==> lo <= r < hi
  {
    lo + Scale(Sample(seed, k), hi - lo)
  }

  /** A sample in [0, IntMax) scaled to [0, n): floor(s * n / IntMax). */
  function Scale(s: nat, n: nat): (r: nat)
    requires s < IntMax
    ensures n == 0 ==> r == 0
    ensures n > 0 ==> r < n
  {
    DivBelow(s * n, IntMax, n, s);
    s * n / IntMax
  }

  lemma DivBelow(a: nat, b: nat, n: nat, s: nat)
    requires a == s * n && s < b
    ensures n == 0 ==> a / b == 0
    ensures n > 0 ==> a / b < n
  {
    if n > 0 {
      var q := a / b;
      assert a == q * b + a % b;
      assert s * n < b * n;
      assert (n - q) * b == n * b - q * b;
      assert (n - q) * b > 0;
    }
  }

  /** System.Random: a deterministic generator whose state is its seed and the number of calls made. */
  class Random {
    const seed: int
    var calls: nat

    constructor (seed: int)
      ensures this.seed == seed && calls == 0
    {
      this.seed := seed;
      calls := 0;
    }

    /** Next(lo, hi); .NET throws when lo > hi. */
    method Next(lo: int, hi: int) returns (r: int)
      requires lo <= hi
      modifies this
      ensures r == Draw(seed, old(calls), lo, hi) && calls == old(calls) + 1
      ensures lo < hi ==> lo <= r < hi
    {
      r := Draw(seed, calls, lo, hi);
      calls := calls + 1;
    }
  }

  /** `s` with positions i and j exchanged. */
  function Swap<T>(s: seq<T>, i: nat, j: nat): (r: seq<T>)
    requires i < |s| && j < |s|
    ensures |r| == |s| && r[i] == s[j] && r[j] == s[i]
    ensures forall k :: 0 <= k < |s| && k != i && k != j ==> r[k] == s[k]
  {
    s[i := s[j]][j := s[i]]
  }

  lemma SwapPermutes<T>(s: seq<T>, i: nat, j: nat)
    requires i < |s| && j < |s|
    ensures multiset(Swap(s, i, j)) == multiset(s)
  {
  }

  /** The array contents after the loop steps i, i+1, ..., |s|-2 of the shuffle have run on `s`. */
  function ShuffleFrom<T>(s: seq<T>, seed: int, i: nat): (r: seq<T>)
    ensures |r| == |s|
    decreases |s| - i
  {
    if i + 1 < |s| then ShuffleFrom(Swap(s, i, Draw(seed, i, i, |s|)), seed, i + 1) else s
  }

  /** What ShuffleArray leaves in an array that held `s`. */
  function Shuffled<T>(s: seq<T>, seed: int): (r: seq<T>)
    ensures |r| == |s|
    ensures |s| <= 1 ==> r == s
  {
    ShuffleFrom(s, seed, 0)
  }

  predicate Distinct<T(==)>(s: seq<T>)
  {
    forall i, j :: 0 <= i < j < |s| ==> s[i] != s[j]
  }

  /** Each step swaps within the unshuffled suffix, so the shuffle is a permutation. */
  lemma {:induction false} ShuffleFromPermutes<T>(s: seq<T>, seed: int, i: nat)
    ensures |ShuffleFrom(s, seed, i)| == |s|
    ensures multiset(ShuffleFrom(s, seed, i)) == multiset(s)
    decreases |s| - i
  {
    if i + 1 < |s| {
      var j := Draw(seed, i, i, |s|);
      SwapPermutes(s, i, j);
      ShuffleFromPermutes(Swap(s, i, j), seed, i + 1);
    }
  }

  /** Positions before i are never touched by the steps from i on: they are final. */
  lemma {:induction false} ShuffleFromKeepsPrefix<T>(s: seq<T>, seed: int, i: nat)
    requires i <= |s|
    ensures |ShuffleFrom(s, seed, i)| == |s|
    ensures ShuffleFrom(s, seed, i)[..i] == s[..i]
    decreases |s| - i
  {
    ShuffleFromPermutes(s, seed, i);
    if i + 1 < |s| {
      var t := Swap(s, i, Draw(seed, i, i, |s|));
      ShuffleFromKeepsPrefix(t, seed, i + 1);
      assert t[..i] == s[..i];
      assert ShuffleFrom(s, seed, i)[..i] == ShuffleFrom(t, seed, i + 1)[..i + 1][..i];
    }
  }

  /** A shuffle of distinct elements has distinct elements. */
  lemma {:induction false} ShuffleFromDistinct<T>(s: seq<T>, seed: int, i: nat)
    requires Distinct(s)
    ensures Distinct(ShuffleFrom(s, seed, i))
    decreases |s| - i
  {
    if i + 1 < |s| {
      var j := Draw(seed, i, i, |s|);
      var t := Swap(s, i, j);
      forall a, b | 0 <= a < b < |t| ensures t[a] != t[b] {
        var pa := if a == i then j else if a == j then i else a;
        var pb := if b == i then j else if b == j then i else b;
        assert t[a] == s[pa] && t[b] == s[pb] && pa != pb;
        if pa < pb { assert s[pa] != s[pb]; } else { assert s[pb] != s[pa]; }
      }
      ShuffleFromDistinct(t, seed, i + 1);
    }
  }

  /** Same input and same seed give the same permutation; lengths 0 and 1 come back unchanged. */
  lemma ShuffledShortIsIdentity<T>(s: seq<T>, seed: int)
    requires |s| <= 1
    ensures Shuffled(s, seed) == s
  {
  }

  /**
   * Fisher-Yates: step i swaps position i with a position drawn from [i, Length) by the
   * generator seeded with `seed`. Works in place and returns the array it was given.
   */
  method ShuffleArray<T>(a: array<T>, seed: int) returns (r: array<T>)
    modifies a
    ensures r == a
    ensures a[..] == Shuffled(old(a[..]), seed)
  {
    ghost var target := Shuffled(a[..], seed);
    var prng := new Random(seed);
    var i := 0;
    while i < a.Length - 1
      invariant 0 <= i <= a.Length
      invariant prng.seed == seed && prng.calls == i
      invariant ShuffleFrom(a[..], seed, i) == target
      decreases a.Length - i
    {
      var randomIndex := prng.Next(i, a.Length);
      ghost var before := a[..];
      var tempItem := a[randomIndex];
      a[randomIndex] := a[i];
      a[i] := tempItem;
      assert ShuffleFrom(a[..], seed, i + 1) == target by {
        assert a[..] == Swap(before, i, randomIndex);
      }
      i := i + 1;
    }
    assert ShuffleFrom(a[..], seed, i) == a[..];
    r := a;
  }
}

/**
 * Generic sequence machinery shared by the parser and the analytics: sums,
 * first-appearance de-duplication (`[...new Set(xs)]`), keyed tallies (the
 * `map.set(k, (map.get(k) || 0) + w)` fold), a stable sort by an integer key
 * (`Array.prototype.sort` with a numeric comparator) and `Array.prototype.slice`.
 */
module Seqs {

  // ---------------------------------------------------------------------------
  // sums

  /** Left-to-right sum (`reduce((a, x) => a + x, 0)`). */
  function Sum(s: seq<int>): int
    decreases |s|
  {
    if |s| == 0 then 0 else Sum(s[..|s| - 1]) + s[|s| - 1]
  }

  lemma {:induction false} SumAppend(a: seq<int>, b: seq<int>)
    ensures Sum(a + b) == Sum(a) + Sum(b)
    decreases |b|
  {
    if |b| == 0 {
      assert a + b == a;
    } else {
      assert (a + b)[..|a + b| - 1] == a + b[..|b| - 1];
      SumAppend(a, b[..|b| - 1]);
    }
  }

  /** Adding `d` to one entry adds `d` to the sum. */
  lemma {:induction false} SumUpdate(s: seq<int>, i: int, d: int)
    requires 0 <= i < |s|
    ensures Sum(s[i := s[i] + d]) == Sum(s) + d
    decreases |s|
  {
    var t := s[i := s[i] + d];
    if i < |s| - 1 {
      assert t[..|t| - 1] == s[..|s| - 1][i := s[i] + d];
      SumUpdate(s[..|s| - 1], i, d);
    } else {
      assert t[..|t| - 1] == s[..|s| - 1];
    }
  }

  /** A sequence of `n` zeros (`new Array(n).fill(0)`). */
  function Zeros(n: nat): (r: seq<int>)
    ensures |r| == n && Sum(r) == 0
    ensures forall i :: 0 <= i < n ==> r[i] == 0
    decreases n
  {
    if n == 0 then [] else
      var z := Zeros(n - 1) + [0];
      assert z[..n - 1] == Zeros(n - 1);
      z
  }

  /** `reduce((a, x) => a + f(x), 0)`. */
  function SumOf<T>(s: seq<T>, f: T -> int): int
    decreases |s|
  {
    if |s| == 0 then 0 else SumOf(s[..|s| - 1], f) + f(s[|s| - 1])
  }

  lemma {:induction false} SumOfAppend<T>(a: seq<T>, b: seq<T>, f: T -> int)
    ensures SumOf(a + b, f) == SumOf(a, f) + SumOf(b, f)
    decreases |b|
  {
    if |b| == 0 {
      assert a + b == a;
    } else {
      assert (a + b)[..|a + b| - 1] == a + b[..|b| - 1];
      SumOfAppend(a, b[..|b| - 1], f);
    }
  }

  /** The sum does not depend on the order of the elements. */
  lemma {:induction false} SumOfPermutation<T>(a: seq<T>, b: seq<T>, f: T -> int)
    requires multiset(a) == multiset(b)
    ensures SumOf(a, f) == SumOf(b, f)
    decreases |a|
  {
    if |a| > 0 {
      var x := a[|a| - 1];
      var a' := a[..|a| - 1];
      assert a == a' + [x];
      assert x in multiset(b);
      var j :| 0 <= j < |b| && b[j] == x;
      SumOfRemove(b, j, f);
      MultisetRemove(b, j);
      assert multiset(a') == multiset(a) - multiset{x};
      SumOfPermutation(a', b[..j] + b[j + 1..], f);
    } else {
      assert multiset(b) == multiset{};
    }
  }

  /** Taking element `j` out of a sum. */
  lemma SumOfRemove<T>(b: seq<T>, j: int, f: T -> int)
    requires 0 <= j < |b|
    ensures SumOf(b, f) == SumOf(b[..j] + b[j + 1..], f) + f(b[j])
  {
    var x := b[j];
    assert b == b[..j] + ([x] + b[j + 1..]);
    SumOfAppend(b[..j], [x] + b[j + 1..], f);
    SumOfAppend([x], b[j + 1..], f);
    SumOfAppend(b[..j], b[j + 1..], f);
    assert SumOf([x], f) == f(x) by {
      assert [x][..0] == [];
    }
  }

  /** Taking element `j` out of a sequence takes one copy out of its multiset. */
  lemma MultisetRemove<T>(b: seq<T>, j: int)
    requires 0 <= j < |b|
    ensures multiset(b[..j] + b[j + 1..]) == multiset(b) - multiset{b[j]}
  {
    assert b == b[..j] + [b[j]] + b[j + 1..];
  }

  /** A sum of per-element values that each lie in `lo..hi` lies in `|s|*lo..|s|*hi`. */
  lemma {:induction false} SumOfBounds<T>(s: seq<T>, f: T -> int, lo: int, hi: int)
    requires forall x :: x in s ==> lo <= f(x) <= hi
    ensures |s| * lo <= SumOf(s, f) <= |s| * hi
    decreases |s|
  {
    if |s| > 0 {
      assert forall x :: x in s[..|s| - 1] ==> x in s;
      SumOfBounds(s[..|s| - 1], f, lo, hi);
      assert s[|s| - 1] in s;
      assert |s| * lo == (|s| - 1) * lo + lo && |s| * hi == (|s| - 1) * hi + hi;
    }
  }

  /** A sum of non-negative values is non-negative. */
  lemma {:induction false} SumOfNonNegative<T>(s: seq<T>, f: T -> int)
    requires forall x :: x in s ==> 0 <= f(x)
    ensures 0 <= SumOf(s, f)
    decreases |s|
  {
    if |s| > 0 {
      assert forall x :: x in s[..|s| - 1] ==> x in s;
      SumOfNonNegative(s[..|s| - 1], f);
      assert s[|s| - 1] in s;
    }
  }

  /** Summing a pointwise difference gives the difference of the sums. */
  lemma {:induction false} SumOfDifference<T>(s: seq<T>, f: T -> int, g: T -> int, h: T -> int)
    requires forall x :: x in s ==> f(x) == g(x) - h(x)
    ensures SumOf(s, f) == SumOf(s, g) - SumOf(s, h)
    decreases |s|
  {
    if |s| > 0 {
      assert forall x :: x in s[..|s| - 1] ==> x in s;
      SumOfDifference(s[..|s| - 1], f, g, h);
      assert s[|s| - 1] in s;
    }
  }

  /** Summing a pointwise smaller value gives a smaller sum. */
  lemma {:induction false} SumOfMonotone<T>(s: seq<T>, f: T -> int, g: T -> int)
    requires forall x :: x in s ==> f(x) <= g(x)
    ensures SumOf(s, f) <= SumOf(s, g)
    decreases |s|
  {
    if |s| > 0 {
      assert forall x :: x in s[..|s| - 1] ==> x in s;
      SumOfMonotone(s[..|s| - 1], f, g);
      assert s[|s| - 1] in s;
    }
  }

  // ---------------------------------------------------------------------------
  // de-duplication

  predicate NoDup<T(==)>(s: seq<T>) {
    forall i, j :: 0 <= i < j < |s| ==> s[i] != s[j]
  }

  /** `[...new Set(xs)]`: the distinct elements of `xs` in order of first appearance. */
  function Distinct<T(==,!new)>(xs: seq<T>): (r: seq<T>)
    ensures NoDup(r)
    ensures forall x :: x in r <==> x in xs
    ensures |r| <= |xs|
    decreases |xs|
  {
    if |xs| == 0 then []
    else
      var d := Distinct(xs[..|xs| - 1]);
      var x := xs[|xs| - 1];
      assert forall y :: y in xs <==> y in xs[..|xs| - 1] || y == x by {
        assert xs == xs[..|xs| - 1] + [x];
      }
      if x in d then d else d + [x]
  }

  /** Two duplicate-free sequences with the same elements are permutations of each other. */
  lemma NoDupSameElements<T>(a: seq<T>, b: seq<T>)
    requires NoDup(a) && NoDup(b)
    requires forall x :: x in a <==> x in b
    ensures multiset(a) == multiset(b)
  {
    forall x
      ensures multiset(a)[x] == multiset(b)[x]
    {
      NoDupCount(a, x);
      NoDupCount(b, x);
    }
  }

  /** A permutation of a duplicate-free sequence is duplicate-free. */
  lemma NoDupPermutation<T>(a: seq<T>, b: seq<T>)
    requires NoDup(a) && multiset(a) == multiset(b)
    ensures NoDup(b)
  {
    forall i, j | 0 <= i < j < |b|
      ensures b[i] != b[j]
    {
      if b[i] == b[j] {
        var x := b[i];
        assert b == b[..i] + [x] + b[i + 1..];
        assert b[i + 1..][j - i - 1] == x;
        assert multiset(b)[x] >= 2 by {
          assert multiset(b) == multiset(b[..i]) + multiset{x} + multiset(b[i + 1..]);
          assert x in multiset(b[i + 1..]);
        }
        NoDupCount(a, x);
      }
    }
  }

  /** A permutation has the same elements. */
  lemma PermutationMembers<T>(a: seq<T>, b: seq<T>)
    requires multiset(a) == multiset(b)
    ensures forall x :: x in b <==> x in a
  {
    forall x
      ensures x in b <==> x in a
    {
      assert x in b <==> x in multiset(b);
      assert x in a <==> x in multiset(a);
    }
  }

  /** The position of the first occurrence of `x` in `xs`. */
  function FirstIndex<T(==)>(xs: seq<T>, x: T): (i: nat)
    requires x in xs
    ensures i < |xs| && xs[i] == x && x !in xs[..i]
    decreases |xs|
  {
    if xs[0] == x then 0
    else
      var k := FirstIndex(xs[1..], x);
      assert xs[..k + 1] == [xs[0]] + xs[1..][..k];
      k + 1
  }

  lemma FirstIndexOfPrefix<T>(xs: seq<T>, x: T, n: nat)
    requires n <= |xs| && x in xs[..n]
    ensures x in xs && FirstIndex(xs, x) == FirstIndex(xs[..n], x)
  {
    var i := FirstIndex(xs[..n], x);
    assert xs[..n][i] == xs[i];
    assert xs[..n][..i] == xs[..i];
  }

  /** Distinct lists the elements in increasing order of their first appearance. */
  lemma {:induction false} DistinctFirstAppearance<T(!new)>(xs: seq<T>)
    ensures forall i, j :: 0 <= i < j < |Distinct(xs)| ==>
      FirstIndex(xs, Distinct(xs)[i]) < FirstIndex(xs, Distinct(xs)[j])
    decreases |xs|
  {
    if |xs| > 0 {
      var n := |xs| - 1;
      var p := xs[..n];
      var d := Distinct(p);
      DistinctFirstAppearance(p);
      forall y | y in d
        ensures FirstIndex(xs, y) == FirstIndex(p, y) && FirstIndex(xs, y) < n
      {
        FirstIndexOfPrefix(xs, y, n);
      }
      var x := xs[n];
      if x !in d {
        assert xs[..n] == p;
      }
    }
  }

  // ---------------------------------------------------------------------------
  // keyed tallies

  /** The keys of a sequence of (key, weight) pairs, in order. */
  function KeysOf<K>(kw: seq<(K, int)>): (r: seq<K>)
    ensures |r| == |kw|
    ensures forall i :: 0 <= i < |kw| ==> r[i] == kw[i].0
  {
    seq(|kw|, i requires 0 <= i < |kw| => kw[i].0)
  }

  /** The total weight of all pairs. */
  function TotalWeight<K>(kw: seq<(K, int)>): int
    decreases |kw|
  {
    if |kw| == 0 then 0 else TotalWeight(kw[..|kw| - 1]) + kw[|kw| - 1].1
  }

  /** The total weight of the pairs whose key is `k`. */
  function WeightOf<K(==)>(kw: seq<(K, int)>, k: K): int
    decreases |kw|
  {
    if |kw| == 0 then 0
    else WeightOf(kw[..|kw| - 1], k) + (if kw[|kw| - 1].0 == k then kw[|kw| - 1].1 else 0)
  }

  lemma {:induction false} WeightOfAbsent<K>(kw: seq<(K, int)>, k: K)
    requires k !in KeysOf(kw)
    ensures WeightOf(kw, k) == 0
    decreases |kw|
  {
    if |kw| > 0 {
      assert KeysOf(kw[..|kw| - 1]) == KeysOf(kw)[..|kw| - 1];
      WeightOfAbsent(kw[..|kw| - 1], k);
    }
  }

  /**
   * The `Map` fold of the source: each pair adds its weight to its key's
   * entry, creating the entry at 0 first.
   */
  function Tally<K(!new)>(kw: seq<(K, int)>): (m: map<K, int>)
    ensures forall k :: k in m <==> k in KeysOf(kw)
    ensures forall k :: k in m ==> m[k] == WeightOf(kw, k)
    decreases |kw|
  {
    if |kw| == 0 then map[]
    else
      var m := Tally(kw[..|kw| - 1]);
      var (k, w) := kw[|kw| - 1];
      assert KeysOf(kw) == KeysOf(kw[..|kw| - 1]) + [k];
      assert k !in m ==> WeightOf(kw[..|kw| - 1], k) == 0 by {
        if k !in m {
          WeightOfAbsent(kw[..|kw| - 1], k);
        }
      }
      m[k := (if k in m then m[k] else 0) + w]
  }

  /** The sum of the tallied weights over a list of keys. */
  function SumWeights<K(==)>(kw: seq<(K, int)>, ks: seq<K>): int
    decreases |ks|
  {
    if |ks| == 0 then 0 else SumWeights(kw, ks[..|ks| - 1]) + WeightOf(kw, ks[|ks| - 1])
  }

  lemma {:induction false} SumWeightsExtend<K>(kw: seq<(K, int)>, k0: K, w: int, ks: seq<K>)
    ensures SumWeights(kw + [(k0, w)], ks) == SumWeights(kw, ks) + w * multiset(ks)[k0]
    decreases |ks|
  {
    if |ks| > 0 {
      var kw' := kw + [(k0, w)];
      assert kw'[..|kw'| - 1] == kw;
      SumWeightsExtend(kw, k0, w, ks[..|ks| - 1]);
      assert ks == ks[..|ks| - 1] + [ks[|ks| - 1]];
    }
  }

  lemma {:induction false} SumWeightsAppend<K>(kw: seq<(K, int)>, ks: seq<K>, k: K)
    ensures SumWeights(kw, ks + [k]) == SumWeights(kw, ks) + WeightOf(kw, k)
  {
    assert (ks + [k])[..|ks|] == ks;
  }

  lemma NoDupCount<T>(s: seq<T>, x: T)
    requires NoDup(s)
    ensures multiset(s)[x] == if x in s then 1 else 0
    decreases |s|
  {
    if |s| > 0 {
      assert s == s[..|s| - 1] + [s[|s| - 1]];
      NoDupCount(s[..|s| - 1], x);
    }
  }

  /**
   * Conservation: summing the tally of every distinct key gives the total
   * weight (so per-key counts add up to the number of items).
   */
  lemma {:induction false} TallyConserves<K(!new)>(kw: seq<(K, int)>)
    ensures SumWeights(kw, Distinct(KeysOf(kw))) == TotalWeight(kw)
    decreases |kw|
  {
    if |kw| > 0 {
      var p := kw[..|kw| - 1];
      var (k0, w) := kw[|kw| - 1];
      assert kw == p + [(k0, w)];
      TallyConserves(p);
      TallyStep(p, k0, w);
    }
  }

  /** One more pair adds its weight to the sum over the distinct keys. */
  lemma TallyStep<K(!new)>(p: seq<(K, int)>, k0: K, w: int)
    requires SumWeights(p, Distinct(KeysOf(p))) == TotalWeight(p)
    ensures SumWeights(p + [(k0, w)], Distinct(KeysOf(p + [(k0, w)]))) == TotalWeight(p + [(k0, w)])
  {
    var kw := p + [(k0, w)];
    assert kw[..|kw| - 1] == p;
    assert KeysOf(kw)[..|kw| - 1] == KeysOf(p);
    var d := Distinct(KeysOf(p));
    SumWeightsExtend(p, k0, w, d);
    NoDupCount(d, k0);
    if k0 !in d {
      assert Distinct(KeysOf(kw)) == d + [k0];
      SumWeightsAppend(kw, d, k0);
      WeightOfAbsent(p, k0);
    } else {
      assert Distinct(KeysOf(kw)) == d;
    }
  }

  /** The sum of `m` over a list of its keys. */
  function SumOver<K>(m: map<K, int>, ks: seq<K>): int
    requires forall k :: k in ks ==> k in m
    decreases |ks|
  {
    if |ks| == 0 then 0 else SumOver(m, ks[..|ks| - 1]) + m[ks[|ks| - 1]]
  }

  /** Over the tallied keys, the map sum and the weight sum agree. */
  lemma {:induction false} SumOverTally<K(!new)>(kw: seq<(K, int)>, ks: seq<K>)
    requires forall k :: k in ks ==> k in KeysOf(kw)
    ensures forall k :: k in ks ==> k in Tally(kw)
    ensures SumOver(Tally(kw), ks) == SumWeights(kw, ks)
    decreases |ks|
  {
    if |ks| > 0 {
      SumOverTally(kw, ks[..|ks| - 1]);
    }
  }

  /** A sum over keys does not depend on the order the keys are listed in. */
  lemma {:induction false} SumOverPermutation<K>(m: map<K, int>, xs: seq<K>, ys: seq<K>)
    requires forall k :: k in xs ==> k in m
    requires multiset(xs) == multiset(ys)
    ensures forall k :: k in ys ==> k in m
    ensures SumOver(m, xs) == SumOver(m, ys)
    decreases |xs|
  {
    PermutationMembers(xs, ys);
    if |xs| > 0 {
      var xs' := xs[..|xs| - 1];
      var j := MatchLast(xs, ys);
      assert forall k :: k in xs' ==> k in xs;
      SumOverPermutation(m, xs', ys[..j] + ys[j + 1..]);
      SumOverRemove(m, ys, j);
    }
  }

  /** The last element of `xs` sits somewhere in its permutation `ys`; the rests are permutations. */
  lemma MatchLast<T>(xs: seq<T>, ys: seq<T>) returns (j: nat)
    requires |xs| > 0 && multiset(xs) == multiset(ys)
    ensures j < |ys| && ys[j] == xs[|xs| - 1]
    ensures multiset(xs[..|xs| - 1]) == multiset(ys[..j] + ys[j + 1..])
  {
    var x := xs[|xs| - 1];
    assert xs == xs[..|xs| - 1] + [x];
    assert x in multiset(ys);
    j :| 0 <= j < |ys| && ys[j] == x;
    MultisetRemove(ys, j);
  }

  lemma {:induction false} SumOverRemove<K>(m: map<K, int>, ys: seq<K>, j: int)
    requires forall k :: k in ys ==> k in m
    requires 0 <= j < |ys|
    ensures forall k :: k in ys[..j] + ys[j + 1..] ==> k in m
    ensures SumOver(m, ys) == SumOver(m, ys[..j] + ys[j + 1..]) + m[ys[j]]
    decreases |ys|
  {
    var r := ys[..j] + ys[j + 1..];
    assert forall k :: k in r ==> k in ys;
    if j < |ys| - 1 {
      var q := ys[..|ys| - 1];
      SumOverRemove(m, q, j);
      assert r == (q[..j] + q[j + 1..]) + [ys[|ys| - 1]];
      assert r[..|r| - 1] == q[..j] + q[j + 1..];
    } else {
      assert r == ys[..|ys| - 1];
    }
  }

  // ---------------------------------------------------------------------------
  // stable sort by an integer key

  predicate SortedByKey<T>(s: seq<T>, key: T -> int) {
    forall i, j :: 0 <= i < j < |s| ==> key(s[i]) <= key(s[j])
  }

  /** The subsequence of elements whose key is `k`, in order. */
  function WithKey<T>(s: seq<T>, key: T -> int, k: int): seq<T>
    decreases |s|
  {
    if |s| == 0 then []
    else WithKey(s[..|s| - 1], key, k) + (if key(s[|s| - 1]) == k then [s[|s| - 1]] else [])
  }

  lemma {:induction false} WithKeyAppend<T>(a: seq<T>, b: seq<T>, key: T -> int, k: int)
    ensures WithKey(a + b, key, k) == WithKey(a, key, k) + WithKey(b, key, k)
    decreases |b|
  {
    if |b| == 0 {
      assert a + b == a;
    } else {
      assert (a + b)[..|a + b| - 1] == a + b[..|b| - 1];
      WithKeyAppend(a, b[..|b| - 1], key, k);
    }
  }

  /** Inserts `x` after every element whose key is not larger than its own. */
  function InsertByKey<T>(s: seq<T>, x: T, key: T -> int): (r: seq<T>)
    ensures |r| == |s| + 1
    ensures multiset(r) == multiset(s) + multiset{x}
    decreases |s|
  {
    if |s| == 0 || key(s[|s| - 1]) <= key(x) then s + [x]
    else
      var last := s[|s| - 1];
      assert s == s[..|s| - 1] + [last];
      InsertByKey(s[..|s| - 1], x, key) + [last]
  }

  lemma {:induction false} InsertByKeySorted<T>(s: seq<T>, x: T, key: T -> int)
    requires SortedByKey(s, key)
    ensures SortedByKey(InsertByKey(s, x, key), key)
    ensures forall i :: 0 <= i < |s| + 1 ==> key(InsertByKey(s, x, key)[i]) >= key(x) || InsertByKey(s, x, key)[i] in s
    decreases |s|
  {
    var r := InsertByKey(s, x, key);
    if !(|s| == 0 || key(s[|s| - 1]) <= key(x)) {
      var p := s[..|s| - 1];
      var last := s[|s| - 1];
      InsertByKeySorted(p, x, key);
      var q := InsertByKey(p, x, key);
      assert r == q + [last];
      assert multiset(q) == multiset(p) + multiset{x};
      forall i | 0 <= i < |q|
        ensures key(q[i]) <= key(last)
      {
        assert q[i] in multiset(q);
        if q[i] != x {
          assert q[i] in multiset(p);
          var j :| 0 <= j < |p| && p[j] == q[i];
          assert s[j] == p[j];
        }
      }
    }
  }

  lemma {:induction false} InsertByKeyStable<T>(s: seq<T>, x: T, key: T -> int, k: int)
    ensures WithKey(InsertByKey(s, x, key), key, k) == WithKey(s, key, k) + (if key(x) == k then [x] else [])
    decreases |s|
  {
    if |s| == 0 || key(s[|s| - 1]) <= key(x) {
      WithKeyAppend(s, [x], key, k);
      assert WithKey([x], key, k) == (if key(x) == k then [x] else []) by {
        assert [x][..0] == [];
      }
    } else {
      var p := s[..|s| - 1];
      var last := s[|s| - 1];
      var q := InsertByKey(p, x, key);
      InsertByKeyStable(p, x, key, k);
      assert (q + [last])[..|q|] == q;
    }
  }

  /** Stable sort ascending by `key` (what `sort((a, b) => key(a) - key(b))` does). */
  function SortByKey<T>(s: seq<T>, key: T -> int): (r: seq<T>)
    ensures |r| == |s|
    ensures multiset(r) == multiset(s)
    ensures SortedByKey(r, key)
    decreases |s|
  {
    if |s| == 0 then []
    else
      var p := SortByKey(s[..|s| - 1], key);
      InsertByKeySorted(p, s[|s| - 1], key);
      assert s == s[..|s| - 1] + [s[|s| - 1]];
      InsertByKey(p, s[|s| - 1], key)
  }

  /** The sort is stable: elements with equal keys keep their relative order. */
  lemma {:induction false} SortByKeyStable<T>(s: seq<T>, key: T -> int, k: int)
    ensures WithKey(SortByKey(s, key), key, k) == WithKey(s, key, k)
    decreases |s|
  {
    if |s| > 0 {
      var p := s[..|s| - 1];
      SortByKeyStable(p, key, k);
      InsertByKeyStable(SortByKey(p, key), s[|s| - 1], key, k);
    }
  }

  // ---------------------------------------------------------------------------
  // slicing

  /** How `Array.prototype.slice` reads an index: negative counts from the end, clamped to the length. */
  function SliceIndex(i: int, len: nat): (r: nat)
    ensures r <= len
    ensures 0 <= i <= len ==> r == i
  {
    if i < 0 then (if len + i < 0 then 0 else len + i) else if i > len then len else i
  }

  /** `s.slice(start, end)`. */
  function Slice<T>(s: seq<T>, start: int, end: int): (r: seq<T>)
    ensures |r| <= |s|
    ensures 0 <= start <= end <= |s| ==> r == s[start..end]
    ensures 0 <= end <= start ==> r == []
  {
    var from := SliceIndex(start, |s|);
    var to := SliceIndex(end, |s|);
    if from < to then s[from..to] else []
  }

  /** `s.slice(0, n)` is a prefix: the first `n` elements, or all but the last `-n` for a negative `n`. */
  lemma SliceHead<T>(s: seq<T>, n: int)
    ensures var r := Slice(s, 0, n);
      && |r| <= |s| && r == s[..|r|]
      && (n >= 0 ==> |r| == if n < |s| then n else |s|)
      && (n < 0 ==> |r| == if |s| + n > 0 then |s| + n else 0)
  {
  }

  /** A position of an element of `xs`. */
  lemma PositionOf<T>(xs: seq<T>, x: T) returns (k: nat)
    requires x in xs
    ensures k < |xs| && xs[k] == x
  {
    k :| 0 <= k < |xs| && xs[k] == x;
  }

  /** A prefix holds no more copies of anything than the whole. */
  lemma PrefixSubMultiset<T>(s: seq<T>, n: nat)
    requires n <= |s|
    ensures multiset(s[..n]) <= multiset(s)
  {
    assert s == s[..n] + s[n..];
  }

  /** A prefix of a sorted sequence is sorted. */
  lemma SortedPrefix<T>(s: seq<T>, key: T -> int, n: nat)
    requires SortedByKey(s, key) && n <= |s|
    ensures SortedByKey(s[..n], key)
  {
    assert forall i :: 0 <= i < n ==> s[..n][i] == s[i];
  }

  /** An element a prefix of a sorted sequence holds fewer copies of has a key no smaller than the prefix's. */
  lemma PrefixKeepsBest<T>(sorted: seq<T>, key: T -> int, n: nat, x: T)
    requires SortedByKey(sorted, key) && n <= |sorted|
    requires multiset(sorted[..n])[x] < multiset(sorted)[x]
    ensures forall i :: 0 <= i < n ==> key(sorted[i]) <= key(x)
  {
    var rest := sorted[n..];
    assert sorted == sorted[..n] + rest;
    assert multiset(sorted) == multiset(sorted[..n]) + multiset(rest);
    assert x in multiset(rest);
    var j :| 0 <= j < |rest| && rest[j] == x;
    assert sorted[n + j] == x;
  }

  function Take<T>(s: seq<T>, n: nat): (r: seq<T>)
    ensures |r| == if n < |s| then n else |s|
    ensures r == s[..|r|]
  {
    if n < |s| then s[..n] else s
  }
}

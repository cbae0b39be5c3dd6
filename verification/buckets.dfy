/**
 * Per-key sums over messages: the `record[key] = (record[key] || 0) + w`
 * and `map.set(key, (map.get(key) || 0) + w)` folds that `calculateStats`,
 * the timeline and the participant activity run, with a key read off each
 * message (its sender, its date bucket) and a weight (1, its word count).
 */
module Buckets {
  import opened Seqs
  import opened Model

  /** The key of every message, in order. */
  function KeysAt(ms: seq<Message>, key: Message -> string): (r: seq<string>)
    ensures |r| == |ms|
    ensures forall i :: 0 <= i < |ms| ==> r[i] == key(ms[i])
  {
    seq(|ms|, i requires 0 <= i < |ms| => key(ms[i]))
  }

  /** Some message of `ms` has key `k`. */
  predicate HasKey(ms: seq<Message>, key: Message -> string, k: string) {
    exists m :: m in ms && key(m) == k
  }

  lemma KeysAtIff(ms: seq<Message>, key: Message -> string, k: string)
    ensures k in KeysAt(ms, key) <==> HasKey(ms, key, k)
  {
    if k in KeysAt(ms, key) {
      var i :| 0 <= i < |ms| && KeysAt(ms, key)[i] == k;
      assert ms[i] in ms;
    }
    if HasKey(ms, key, k) {
      var m :| m in ms && key(m) == k;
      var i :| 0 <= i < |ms| && ms[i] == m;
      assert KeysAt(ms, key)[i] == k;
    }
  }

  /** Every message as a (key, weight) pair, in order: the input of the fold. */
  function KeyedPairs(ms: seq<Message>, key: Message -> string, w: Message -> int): (r: seq<(string, int)>)
    ensures |r| == |ms|
    ensures forall i :: 0 <= i < |ms| ==> r[i] == (key(ms[i]), w(ms[i]))
  {
    seq(|ms|, i requires 0 <= i < |ms| => (key(ms[i]), w(ms[i])))
  }

  /** The total weight of the messages with key `k`: the reference each fold result is measured against. */
  function KeyTotal(ms: seq<Message>, key: Message -> string, k: string, w: Message -> int): int
    decreases |ms|
  {
    if |ms| == 0 then 0
    else KeyTotal(ms[..|ms| - 1], key, k, w) + (if key(ms[|ms| - 1]) == k then w(ms[|ms| - 1]) else 0)
  }

  /** Each message counts once. */
  function One(m: Message): int {
    1
  }

  lemma KeyedPairsPrefix(ms: seq<Message>, key: Message -> string, w: Message -> int, n: nat)
    requires n <= |ms|
    ensures KeyedPairs(ms, key, w)[..n] == KeyedPairs(ms[..n], key, w)
  {
  }

  lemma {:induction false} WeightOfKeyedPairs(ms: seq<Message>, key: Message -> string, w: Message -> int, k: string)
    ensures WeightOf(KeyedPairs(ms, key, w), k) == KeyTotal(ms, key, k, w)
    decreases |ms|
  {
    if |ms| > 0 {
      KeyedPairsPrefix(ms, key, w, |ms| - 1);
      WeightOfKeyedPairs(ms[..|ms| - 1], key, w, k);
    }
  }

  lemma {:induction false} TotalWeightKeyedPairs(ms: seq<Message>, key: Message -> string, w: Message -> int)
    ensures TotalWeight(KeyedPairs(ms, key, w)) == SumOf(ms, w)
    decreases |ms|
  {
    if |ms| > 0 {
      KeyedPairsPrefix(ms, key, w, |ms| - 1);
      TotalWeightKeyedPairs(ms[..|ms| - 1], key, w);
    }
  }

  lemma KeyedPairsKeys(ms: seq<Message>, key: Message -> string, w: Message -> int)
    ensures KeysOf(KeyedPairs(ms, key, w)) == KeysAt(ms, key)
  {
  }

  lemma {:induction false} SumOfOne(ms: seq<Message>)
    ensures SumOf(ms, One) == |ms|
    decreases |ms|
  {
    if |ms| > 0 {
      SumOfOne(ms[..|ms| - 1]);
    }
  }

  /** A key some message carries counts at least one message. */
  lemma {:induction false} KeyTotalOnePositive(ms: seq<Message>, key: Message -> string, k: string)
    ensures KeyTotal(ms, key, k, One) >= 0
    ensures HasKey(ms, key, k) ==> KeyTotal(ms, key, k, One) >= 1
    decreases |ms|
  {
    if |ms| > 0 {
      var p := ms[..|ms| - 1];
      KeyTotalOnePositive(p, key, k);
      if HasKey(ms, key, k) && key(ms[|ms| - 1]) != k {
        var m :| m in ms && key(m) == k;
        var i :| 0 <= i < |ms| && ms[i] == m;
        assert p[i] == m;
      }
    }
  }

  /**
   * The fold: each message adds its weight to its key's entry, starting the
   * entry at 0. The entries are exactly the keys present, each holding its
   * key's total.
   */
  function PerKey(ms: seq<Message>, key: Message -> string, w: Message -> int): (t: map<string, int>)
    ensures forall k :: k in t <==> HasKey(ms, key, k)
    ensures forall k :: k in t ==> t[k] == KeyTotal(ms, key, k, w)
  {
    var t := Tally(KeyedPairs(ms, key, w));
    KeyedPairsKeys(ms, key, w);
    assert forall k :: k in t <==> HasKey(ms, key, k) by {
      forall k
        ensures k in t <==> HasKey(ms, key, k)
      {
        KeysAtIff(ms, key, k);
      }
    }
    assert forall k :: k in t ==> t[k] == KeyTotal(ms, key, k, w) by {
      forall k | k in t
        ensures t[k] == KeyTotal(ms, key, k, w)
      {
        WeightOfKeyedPairs(ms, key, w, k);
      }
    }
    t
  }

  /** Message counts per key are positive. */
  lemma PerKeyCountsPositive(ms: seq<Message>, key: Message -> string)
    ensures forall k :: k in PerKey(ms, key, One) ==> PerKey(ms, key, One)[k] >= 1
  {
    forall k | k in PerKey(ms, key, One)
      ensures PerKey(ms, key, One)[k] >= 1
    {
      KeyTotalOnePositive(ms, key, k);
    }
  }

  /**
   * Conservation: summed over a duplicate-free list of exactly the keys
   * present, the fold gives the total weight of all messages.
   */
  lemma PerKeyConserves(ms: seq<Message>, key: Message -> string, w: Message -> int, ks: seq<string>)
    requires NoDup(ks) && forall k :: k in ks <==> k in KeysAt(ms, key)
    ensures forall k :: k in ks ==> k in PerKey(ms, key, w)
    ensures SumOver(PerKey(ms, key, w), ks) == SumOf(ms, w)
  {
    var kw := KeyedPairs(ms, key, w);
    KeyedPairsKeys(ms, key, w);
    var d := Distinct(KeysOf(kw));
    TallyConserves(kw);
    TotalWeightKeyedPairs(ms, key, w);
    SumOverTally(kw, d);
    NoDupSameElements(d, ks);
    SumOverPermutation(Tally(kw), d, ks);
  }
}

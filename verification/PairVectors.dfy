/** Vectors of intermediate pairs: what sorting and merging them means. */
module PairVectors {

  datatype Pair<K, V> = Pair(key: K, val: V)

  /** What the framework needs of a key's `operator<`. */
  ghost predicate StrictWeakOrder<K(!new)>(less: (K, K) -> bool) {
    && (forall a, b :: less(a, b) ==> !less(b, a))
    && (forall a, b, c :: less(a, c) ==> less(a, b) || less(b, c))
  }

  /** Neither key is less than the other. */
  predicate Equiv<K>(less: (K, K) -> bool, a: K, b: K) {
    !less(a, b) && !less(b, a)
  }

  ghost predicate Sorted<K, V>(less: (K, K) -> bool, s: seq<Pair<K, V>>) {
    forall i, j :: 0 <= i < j < |s| ==> !less(s[j].key, s[i].key)
  }

  /** `std::merge`: of two pairs that are equivalent the first vector's goes first. */
  function Merge<K, V>(less: (K, K) -> bool, a: seq<Pair<K, V>>, b: seq<Pair<K, V>>): seq<Pair<K, V>>
    decreases |a| + |b|
  {
    if a == [] then b
    else if b == [] then a
    else if less(b[0].key, a[0].key) then [b[0]] + Merge(less, a, b[1..])
    else [a[0]] + Merge(less, a[1..], b)
  }

  /** One round over a list of vectors: neighbours are merged, an odd last
      vector is kept. */
  function MergeRound<K, V>(less: (K, K) -> bool, ls: seq<seq<Pair<K, V>>>): (r: seq<seq<Pair<K, V>>>)
    ensures |r| == (|ls| + 1) / 2
  {
    if |ls| <= 1 then ls
    else [Merge(less, ls[0], ls[1])] + MergeRound(less, ls[2..])
  }

  /** Rounds until one vector is left. */
  function MergeAll<K, V>(less: (K, K) -> bool, ls: seq<seq<Pair<K, V>>>): seq<Pair<K, V>>
    requires ls != []
    decreases |ls|
  {
    if |ls| == 1 then ls[0] else MergeAll(less, MergeRound(less, ls))
  }

  ghost function Union<T>(ls: seq<seq<T>>): multiset<T> {
    if ls == [] then multiset{} else multiset(ls[0]) + Union(ls[1..])
  }

  // --------------------------------------------------------------------- merging

  lemma {:induction false} MergeElements<K, V>(less: (K, K) -> bool, a: seq<Pair<K, V>>, b: seq<Pair<K, V>>)
    ensures multiset(Merge(less, a, b)) == multiset(a) + multiset(b)
    decreases |a| + |b|
  {
    if a != [] && b != [] {
      assert a == [a[0]] + a[1..] && b == [b[0]] + b[1..];
      if less(b[0].key, a[0].key) {
        MergeElements(less, a, b[1..]);
      } else {
        MergeElements(less, a[1..], b);
      }
    }
  }

  /** No pair of `s` has a key less than `p`'s. */
  ghost predicate NotBelow<K, V>(less: (K, K) -> bool, p: Pair<K, V>, s: seq<Pair<K, V>>) {
    forall i :: 0 <= i < |s| ==> !less(s[i].key, p.key)
  }

  lemma SortedHead<K, V>(less: (K, K) -> bool, s: seq<Pair<K, V>>)
    requires Sorted(less, s) && s != []
    ensures NotBelow(less, s[0], s[1..]) && Sorted(less, s[1..])
  {
  }

  lemma SortedCons<K, V>(less: (K, K) -> bool, p: Pair<K, V>, s: seq<Pair<K, V>>)
    requires Sorted(less, s) && NotBelow(less, p, s)
    ensures Sorted(less, [p] + s)
  {
  }

  lemma {:induction false} MergeNotBelow<K, V>(less: (K, K) -> bool, p: Pair<K, V>, a: seq<Pair<K, V>>, b: seq<Pair<K, V>>)
    requires NotBelow(less, p, a) && NotBelow(less, p, b)
    ensures NotBelow(less, p, Merge(less, a, b))
  {
    forall i | 0 <= i < |Merge(less, a, b)| ensures !less(Merge(less, a, b)[i].key, p.key) {
      var q := Merge(less, a, b)[i];
      MergeElements(less, a, b);
      assert q in multiset(Merge(less, a, b));
      assert q in a || q in b;
    }
  }

  /** Below `x`, hence below everything not below `x`. */
  lemma StillLess<K(!new)>(less: (K, K) -> bool, low: K, x: K, y: K)
    requires StrictWeakOrder(less) && less(low, x) && !less(y, x)
    ensures less(low, y)
  {
  }

  lemma StillNotLess<K(!new)>(less: (K, K) -> bool, low: K, x: K, y: K)
    requires StrictWeakOrder(less) && !less(x, low) && !less(y, x)
    ensures !less(y, low)
  {
  }

  lemma {:induction false} MergeSorted<K(!new), V>(less: (K, K) -> bool, a: seq<Pair<K, V>>, b: seq<Pair<K, V>>)
    requires StrictWeakOrder(less) && Sorted(less, a) && Sorted(less, b)
    ensures Sorted(less, Merge(less, a, b))
    decreases |a| + |b|
  {
    if a != [] && b != [] {
      SortedHead(less, a);
      SortedHead(less, b);
      if less(b[0].key, a[0].key) {
        MergeSorted(less, a, b[1..]);
        forall i | 0 <= i < |a| ensures less(b[0].key, a[i].key) {
          StillLess(less, b[0].key, a[0].key, a[i].key);
        }
        MergeNotBelow(less, b[0], a, b[1..]);
        SortedCons(less, b[0], Merge(less, a, b[1..]));
      } else {
        MergeSorted(less, a[1..], b);
        forall i | 0 <= i < |b| ensures !less(b[i].key, a[0].key) {
          StillNotLess(less, a[0].key, b[0].key, b[i].key);
        }
        MergeNotBelow(less, a[0], a[1..], b);
        SortedCons(less, a[0], Merge(less, a[1..], b));
      }
    }
  }

  ghost predicate AllSorted<K, V>(less: (K, K) -> bool, ls: seq<seq<Pair<K, V>>>) {
    forall i :: 0 <= i < |ls| ==> Sorted(less, ls[i])
  }

  lemma {:induction false} MergeRoundCorrect<K(!new), V>(less: (K, K) -> bool, ls: seq<seq<Pair<K, V>>>)
    requires StrictWeakOrder(less) && AllSorted(less, ls)
    ensures AllSorted(less, MergeRound(less, ls)) && Union(MergeRound(less, ls)) == Union(ls)
    decreases |ls|
  {
    if |ls| >= 2 {
      MergeRoundCorrect(less, ls[2..]);
      MergeSorted(less, ls[0], ls[1]);
      MergeElements(less, ls[0], ls[1]);
      assert ls[1..][1..] == ls[2..] && ls[1..][0] == ls[1];
      assert MergeRound(less, ls)[1..] == MergeRound(less, ls[2..]);
    }
  }

  /** Pairwise merging turns any nonempty list of sorted vectors into one
      sorted vector with exactly their pairs. */
  lemma {:induction false} MergeAllCorrect<K(!new), V>(less: (K, K) -> bool, ls: seq<seq<Pair<K, V>>>)
    requires StrictWeakOrder(less) && AllSorted(less, ls) && ls != []
    ensures Sorted(less, MergeAll(less, ls)) && multiset(MergeAll(less, ls)) == Union(ls)
    decreases |ls|
  {
    if |ls| == 1 {
      assert ls[1..] == [];
    } else {
      MergeRoundCorrect(less, ls);
      MergeAllCorrect(less, MergeRound(less, ls));
    }
  }
}

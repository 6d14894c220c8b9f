/** Grouping pairs by key, by linear search through the groups made so far. */
module Grouping {
  import opened PairVectors

  /** The first group whose head has an equivalent key, or the number of groups. */
  function FindGroup<K, V>(less: (K, K) -> bool, groups: seq<seq<Pair<K, V>>>, key: K): (i: nat)
    ensures i <= |groups|
    ensures i < |groups| ==> groups[i] != [] && Equiv(less, key, groups[i][0].key)
    ensures forall k :: 0 <= k < i ==> !(groups[k] != [] && Equiv(less, key, groups[k][0].key))
  {
    if groups == [] then 0
    else if groups[0] != [] && Equiv(less, key, groups[0][0].key) then 0
    else
      var rest := FindGroup(less, groups[1..], key);
      assert forall k :: 1 <= k < rest + 1 ==> groups[k] == groups[1..][k - 1];
      1 + rest
  }

  /** One pair joins its group, or starts a new one at the end. */
  function AddPair<K, V>(less: (K, K) -> bool, groups: seq<seq<Pair<K, V>>>, p: Pair<K, V>): seq<seq<Pair<K, V>>> {
    var i := FindGroup(less, groups, p.key);
    if i < |groups| then groups[i := groups[i] + [p]] else groups + [[p]]
  }

  function Group<K, V>(less: (K, K) -> bool, pairs: seq<Pair<K, V>>): seq<seq<Pair<K, V>>> {
    if pairs == [] then []
    else AddPair(less, Group(less, pairs[..|pairs| - 1]), pairs[|pairs| - 1])
  }

  /** The pairs whose key is equivalent to `key`, in order. */
  function WithKey<K, V>(less: (K, K) -> bool, pairs: seq<Pair<K, V>>, key: K): seq<Pair<K, V>> {
    if pairs == [] then []
    else
      var rest := WithKey(less, pairs[..|pairs| - 1], key);
      var p := pairs[|pairs| - 1];
      if Equiv(less, p.key, key) then rest + [p] else rest
  }

  function Concat<T>(ls: seq<seq<T>>): seq<T> {
    if ls == [] then [] else Concat(ls[..|ls| - 1]) + ls[|ls| - 1]
  }

  /** Every group is nonempty and is exactly the pairs with its key; different
      groups have different keys; no pair is left out. */
  ghost predicate Partition<K, V>(less: (K, K) -> bool, groups: seq<seq<Pair<K, V>>>, pairs: seq<Pair<K, V>>) {
    && (forall i :: 0 <= i < |groups| ==> groups[i] != [] && groups[i] == WithKey(less, pairs, groups[i][0].key))
    && (forall i, j :: 0 <= i < j < |groups| ==>
          groups[i] != [] && groups[j] != [] && !Equiv(less, groups[i][0].key, groups[j][0].key))
    && (forall k :: 0 <= k < |pairs| ==> exists i :: 0 <= i < |groups| && pairs[k] in groups[i])
  }

  /** The groups' keys strictly increase. */
  ghost predicate Increasing<K, V>(less: (K, K) -> bool, groups: seq<seq<Pair<K, V>>>) {
    forall i, j :: 0 <= i < j < |groups| ==>
      groups[i] != [] && groups[j] != [] && less(groups[i][0].key, groups[j][0].key)
  }

  lemma {:induction false} WithKeySame<K(!new), V>(less: (K, K) -> bool, pairs: seq<Pair<K, V>>, a: K, b: K)
    requires StrictWeakOrder(less) && Equiv(less, a, b)
    ensures WithKey(less, pairs, a) == WithKey(less, pairs, b)
  {
    if pairs != [] {
      WithKeySame(less, pairs[..|pairs| - 1], a, b);
      EquivTransitive(less, pairs[|pairs| - 1].key, a, b);
    }
  }

  lemma EquivTransitive<K(!new)>(less: (K, K) -> bool, x: K, a: K, b: K)
    requires StrictWeakOrder(less) && Equiv(less, a, b)
    ensures Equiv(less, x, a) <==> Equiv(less, x, b)
  {
  }

  lemma OtherKey<K(!new)>(less: (K, K) -> bool, x: K, a: K, b: K)
    requires StrictWeakOrder(less) && Equiv(less, x, a)
    requires !Equiv(less, a, b) || !Equiv(less, b, a)
    ensures !Equiv(less, x, b)
  {
  }

  lemma {:induction false} WithKeyNone<K, V>(less: (K, K) -> bool, pairs: seq<Pair<K, V>>, key: K)
    requires forall k :: 0 <= k < |pairs| ==> !Equiv(less, pairs[k].key, key)
    ensures WithKey(less, pairs, key) == []
  {
    if pairs != [] {
      WithKeyNone(less, pairs[..|pairs| - 1], key);
    }
  }

  lemma {:induction false} WithKeyElements<K, V>(less: (K, K) -> bool, pairs: seq<Pair<K, V>>, key: K)
    ensures forall p :: p in WithKey(less, pairs, key) <==> p in pairs && Equiv(less, p.key, key)
  {
    if pairs != [] {
      WithKeyElements(less, pairs[..|pairs| - 1], key);
      assert pairs == pairs[..|pairs| - 1] + [pairs[|pairs| - 1]];
    }
  }

  /** Grouping partitions any vector, sorted or not, by key. */
  lemma {:induction false} GroupPartitions<K(!new), V>(less: (K, K) -> bool, pairs: seq<Pair<K, V>>)
    requires StrictWeakOrder(less)
    ensures Partition(less, Group(less, pairs), pairs)
  {
    if pairs != [] {
      var init, p := pairs[..|pairs| - 1], pairs[|pairs| - 1];
      GroupPartitions(less, init);
      AddKeepsPartition(less, Group(less, init), init, p);
      assert pairs == init + [p];
    }
  }

  lemma AddKeepsPartition<K(!new), V>(less: (K, K) -> bool, groups: seq<seq<Pair<K, V>>>, init: seq<Pair<K, V>>, p: Pair<K, V>)
    requires StrictWeakOrder(less) && Partition(less, groups, init)
    ensures Partition(less, AddPair(less, groups, p), init + [p])
  {
    var i := FindGroup(less, groups, p.key);
    var groups': seq<seq<Pair<K, V>>> := AddPair(less, groups, p);
    var pairs := init + [p];
    assert pairs[..|pairs| - 1] == init;
    forall k | 0 <= k < |groups'| ensures groups'[k] != [] && groups'[k] == WithKey(less, pairs, groups'[k][0].key) {
      if i == |groups| && k == i {
        NewKey(less, groups, init, p);
      } else if k == i {
        assert Equiv(less, p.key, groups[i][0].key);
      } else if i < |groups| {
        OtherKey(less, p.key, groups[i][0].key, groups[k][0].key);
      }
    }
    forall k | 0 <= k < |pairs| ensures exists m :: 0 <= m < |groups'| && pairs[k] in groups'[m] {
      if k < |init| {
        assert pairs[k] == init[k];
        var m :| 0 <= m < |groups| && init[k] in groups[m];
        assert pairs[k] in groups'[m];
      } else if i < |groups| {
        assert p in groups'[i];
      } else {
        assert p in groups'[|groups|];
      }
    }
  }

  lemma NewKey<K(!new), V>(less: (K, K) -> bool, groups: seq<seq<Pair<K, V>>>, init: seq<Pair<K, V>>, p: Pair<K, V>)
    requires StrictWeakOrder(less) && Partition(less, groups, init) && FindGroup(less, groups, p.key) == |groups|
    ensures WithKey(less, init, p.key) == []
  {
    forall k | 0 <= k < |init| ensures !Equiv(less, init[k].key, p.key) {
      var m :| 0 <= m < |groups| && init[k] in groups[m];
      WithKeyElements(less, init, groups[m][0].key);
      EquivTransitive(less, p.key, init[k].key, groups[m][0].key);
    }
    WithKeyNone(less, init, p.key);
  }

  // ------------------------------------------------------------- sorted input

  lemma {:induction false} ConcatAdd<T>(ls: seq<seq<T>>, l: seq<T>)
    ensures Concat(ls + [l]) == Concat(ls) + l
  {
    assert (ls + [l])[..|ls|] == ls;
  }

  lemma SortedInit<K, V>(less: (K, K) -> bool, init: seq<Pair<K, V>>, p: Pair<K, V>)
    requires Sorted(less, init + [p])
    ensures Sorted(less, init) && forall q :: q in init ==> !less(p.key, q.key)
  {
    forall i, j | 0 <= i < j < |init| ensures !less(init[j].key, init[i].key) {
      assert (init + [p])[i] == init[i] && (init + [p])[j] == init[j];
    }
    forall q | q in init ensures !less(p.key, q.key) {
      var i :| 0 <= i < |init| && init[i] == q;
      assert (init + [p])[i] == q && (init + [p])[|init|] == p;
    }
  }

  /** On a sorted vector the groups come out in strictly increasing key order,
      and put one after the other they are the vector again. */
  lemma {:induction false} GroupSorted<K(!new), V>(less: (K, K) -> bool, pairs: seq<Pair<K, V>>)
    requires StrictWeakOrder(less) && Sorted(less, pairs)
    ensures Increasing(less, Group(less, pairs)) && Concat(Group(less, pairs)) == pairs
  {
    if pairs != [] {
      var init, p := pairs[..|pairs| - 1], pairs[|pairs| - 1];
      assert pairs == init + [p];
      SortedInit(less, init, p);
      GroupSorted(less, init);
      GroupPartitions(less, init);
      AddSorted(less, Group(less, init), init, p);
    }
  }

  lemma AddSorted<K(!new), V>(less: (K, K) -> bool, groups: seq<seq<Pair<K, V>>>, init: seq<Pair<K, V>>, p: Pair<K, V>)
    requires StrictWeakOrder(less) && Partition(less, groups, init)
    requires Increasing(less, groups) && Concat(groups) == init
    requires forall q :: q in init ==> !less(p.key, q.key)
    ensures Increasing(less, AddPair(less, groups, p)) && Concat(AddPair(less, groups, p)) == init + [p]
  {
    hide *;
    var i, n := FindGroup(less, groups, p.key), |groups|;
    NoneAbove(less, groups, init, p);
    AddPairIs(less, groups, p);
    if i == n {
      ConcatAdd(groups, [p]);
      AppendIncreasing(less, groups, p);
    } else {
      FoundLast(less, groups, p.key, i);
      var front := groups[..n - 1];
      assert groups == front + [groups[n - 1]];
      assert groups[n - 1 := groups[n - 1] + [p]] == front + [groups[n - 1] + [p]];
      ConcatAdd(front, groups[n - 1]);
      ConcatAdd(front, groups[n - 1] + [p]);
      assert Concat(front) + (groups[n - 1] + [p]) == (Concat(front) + groups[n - 1]) + [p];
      ExtendIncreasing(less, groups, n - 1, p);
    }
  }

  lemma AddPairIs<K, V>(less: (K, K) -> bool, groups: seq<seq<Pair<K, V>>>, p: Pair<K, V>)
    ensures var i := FindGroup(less, groups, p.key);
            AddPair(less, groups, p) == if i < |groups| then groups[i := groups[i] + [p]] else groups + [[p]]
    ensures FindGroup(less, groups, p.key) == |groups| ==>
              forall k :: 0 <= k < |groups| ==> groups[k] == [] || !Equiv(less, p.key, groups[k][0].key)
  {
  }

  lemma AppendIncreasing<K(!new), V>(less: (K, K) -> bool, groups: seq<seq<Pair<K, V>>>, p: Pair<K, V>)
    requires StrictWeakOrder(less) && Increasing(less, groups)
    requires forall k :: 0 <= k < |groups| ==> groups[k] != [] && !less(p.key, groups[k][0].key)
    requires forall k :: 0 <= k < |groups| ==> groups[k] == [] || !Equiv(less, p.key, groups[k][0].key)
    ensures Increasing(less, groups + [[p]])
  {
    forall k | 0 <= k < |groups| ensures less(groups[k][0].key, p.key) {
    }
  }

  lemma ExtendIncreasing<K, V>(less: (K, K) -> bool, groups: seq<seq<Pair<K, V>>>, i: nat, p: Pair<K, V>)
    requires i < |groups| && Increasing(less, groups) && groups[i] != []
    ensures Increasing(less, groups[i := groups[i] + [p]])
  {
    var groups' := groups[i := groups[i] + [p]];
    forall k | 0 <= k < |groups| && groups[k] != [] ensures groups'[k] != [] && groups'[k][0] == groups[k][0] {
    }
  }

  lemma NoneAbove<K(!new), V>(less: (K, K) -> bool, groups: seq<seq<Pair<K, V>>>, init: seq<Pair<K, V>>, p: Pair<K, V>)
    requires Partition(less, groups, init) && forall q :: q in init ==> !less(p.key, q.key)
    ensures forall k :: 0 <= k < |groups| ==> groups[k] != [] && !less(p.key, groups[k][0].key)
  {
    forall k | 0 <= k < |groups| ensures !less(p.key, groups[k][0].key) {
      WithKeyElements(less, init, groups[k][0].key);
      assert groups[k][0] in groups[k];
    }
  }

  /** A key not below any group that belongs to a group belongs to the last. */
  lemma FoundLast<K(!new), V>(less: (K, K) -> bool, groups: seq<seq<Pair<K, V>>>, key: K, i: nat)
    requires StrictWeakOrder(less) && Increasing(less, groups) && i < |groups|
    requires forall k :: 0 <= k < |groups| ==> groups[k] != [] && !less(key, groups[k][0].key)
    requires Equiv(less, key, groups[i][0].key)
    ensures i == |groups| - 1
  {
    if i < |groups| - 1 {
      StillLess(less, groups[i][0].key, groups[|groups| - 1][0].key, key);
    }
  }

  // ------------------------------------------------------------ equivalent keys

  lemma {:induction false} WithKeyAppend<K, V>(less: (K, K) -> bool, a: seq<Pair<K, V>>, b: seq<Pair<K, V>>, key: K)
    ensures WithKey(less, a + b, key) == WithKey(less, a, key) + WithKey(less, b, key)
  {
    if b == [] {
      assert a + b == a;
    } else {
      assert (a + b)[..|a + b| - 1] == a + b[..|b| - 1];
      WithKeyAppend(less, a, b[..|b| - 1], key);
    }
  }

  lemma WithKeyCons<K, V>(less: (K, K) -> bool, p: Pair<K, V>, s: seq<Pair<K, V>>, key: K)
    ensures WithKey(less, [p] + s, key) == (if Equiv(less, p.key, key) then [p] else []) + WithKey(less, s, key)
  {
    WithKeyAppend(less, [p], s, key);
    assert [p][..0] == [];
  }

  lemma WithKeyHead<K, V>(less: (K, K) -> bool, s: seq<Pair<K, V>>, key: K)
    requires s != []
    ensures WithKey(less, s, key) == (if Equiv(less, s[0].key, key) then [s[0]] else []) + WithKey(less, s[1..], key)
    ensures !Equiv(less, s[0].key, key) ==> WithKey(less, s, key) == WithKey(less, s[1..], key)
  {
    hide WithKey;
    WithKeyCons(less, s[0], s[1..], key);
    assert s == [s[0]] + s[1..];
  }

  lemma WithKeyEmpty<K, V>(less: (K, K) -> bool, key: K)
    ensures WithKey<K, V>(less, [], key) == []
  {
  }

  lemma MergeIs<K, V>(less: (K, K) -> bool, a: seq<Pair<K, V>>, b: seq<Pair<K, V>>)
    ensures a == [] ==> Merge(less, a, b) == b
    ensures b == [] ==> Merge(less, a, b) == a
    ensures a != [] && b != [] ==>
              Merge(less, a, b) == if less(b[0].key, a[0].key) then [b[0]] + Merge(less, a, b[1..])
                                   else [a[0]] + Merge(less, a[1..], b)
  {
  }

  /** Of pairs with equivalent keys, those of the first vector go first, and
      both keep their order: `std::merge` is stable. */
  lemma {:induction false} MergeKeepsOrder<K(!new), V>(less: (K, K) -> bool, a: seq<Pair<K, V>>, b: seq<Pair<K, V>>, key: K)
    requires StrictWeakOrder(less) && Sorted(less, a) && Sorted(less, b)
    ensures WithKey(less, Merge(less, a, b), key) == WithKey(less, a, key) + WithKey(less, b, key)
    decreases |a| + |b|
  {
    hide *;
    WithKeyEmpty<K, V>(less, key);
    MergeIs(less, a, b);
    if a == [] {
      assert WithKey(less, a, key) + WithKey(less, b, key) == WithKey(less, b, key);
    } else if b == [] {
      assert WithKey(less, a, key) + WithKey(less, b, key) == WithKey(less, a, key);
    } else {
      SortedHead(less, a);
      SortedHead(less, b);
      var mine, yours := WithKey(less, a, key), WithKey(less, b, key);
      if less(b[0].key, a[0].key) {
        MergeKeepsOrder(less, a, b[1..], key);
        WithKeyHead(less, Merge(less, a, b), key);
        WithKeyHead(less, b, key);
        assert Merge(less, a, b)[1..] == Merge(less, a, b[1..]);
        if Equiv(less, b[0].key, key) {
          NoneEquiv(less, a, b[0], key);
          assert [b[0]] + (mine + WithKey(less, b[1..], key)) == mine + ([b[0]] + WithKey(less, b[1..], key));
        }
      } else {
        MergeKeepsOrder(less, a[1..], b, key);
        WithKeyHead(less, Merge(less, a, b), key);
        WithKeyHead(less, a, key);
        assert Merge(less, a, b)[1..] == Merge(less, a[1..], b);
        var head := if Equiv(less, a[0].key, key) then [a[0]] else [];
        assert head + (WithKey(less, a[1..], key) + yours) == (head + WithKey(less, a[1..], key)) + yours;
      }
    }
  }

  lemma NoneEquiv<K(!new), V>(less: (K, K) -> bool, a: seq<Pair<K, V>>, p: Pair<K, V>, key: K)
    requires StrictWeakOrder(less) && Sorted(less, a) && a != [] && less(p.key, a[0].key) && Equiv(less, p.key, key)
    ensures WithKey(less, a, key) == []
  {
    forall k | 0 <= k < |a| ensures !Equiv(less, a[k].key, key) {
      StillLess(less, p.key, a[0].key, a[k].key);
    }
    WithKeyNone(less, a, key);
  }

  /** The pairs with this key, vector after vector. */
  ghost function Gathered<K, V>(less: (K, K) -> bool, ls: seq<seq<Pair<K, V>>>, key: K): seq<Pair<K, V>> {
    if ls == [] then [] else WithKey(less, ls[0], key) + Gathered(less, ls[1..], key)
  }

  lemma {:induction false} RoundKeepsOrder<K(!new), V>(less: (K, K) -> bool, ls: seq<seq<Pair<K, V>>>, key: K)
    requires StrictWeakOrder(less) && AllSorted(less, ls)
    ensures Gathered(less, MergeRound(less, ls), key) == Gathered(less, ls, key)
    decreases |ls|
  {
    hide StrictWeakOrder, Sorted;
    if |ls| >= 2 {
      RoundKeepsOrder(less, ls[2..], key);
      MergeKeepsOrder(less, ls[0], ls[1], key);
      assert ls[1..][1..] == ls[2..] && ls[1..][0] == ls[1];
      assert MergeRound(less, ls)[1..] == MergeRound(less, ls[2..]);
    }
  }

  /** In the merged vector the pairs of each key stand as in the vectors one
      after the other. */
  lemma {:induction false} MergeAllKeepsOrder<K(!new), V>(less: (K, K) -> bool, ls: seq<seq<Pair<K, V>>>, key: K)
    requires StrictWeakOrder(less) && AllSorted(less, ls) && ls != []
    ensures WithKey(less, MergeAll(less, ls), key) == Gathered(less, ls, key)
    decreases |ls|
  {
    hide StrictWeakOrder, Sorted;
    if |ls| == 1 {
      assert ls[1..] == [];
    } else {
      MergeRoundCorrect(less, ls);
      RoundKeepsOrder(less, ls, key);
      MergeAllKeepsOrder(less, MergeRound(less, ls), key);
    }
  }

  /** Each group is its key's pairs of the first vector, then of the second, and
      so on, each in their order. */
  lemma GroupsGather<K(!new), V>(less: (K, K) -> bool, ls: seq<seq<Pair<K, V>>>)
    requires StrictWeakOrder(less) && AllSorted(less, ls) && ls != []
    ensures forall i :: 0 <= i < |Group(less, MergeAll(less, ls))| ==>
              var group := Group(less, MergeAll(less, ls))[i];
              group != [] && group == Gathered(less, ls, group[0].key)
  {
    hide StrictWeakOrder, AllSorted, Gathered, MergeAll, Group;
    var merged := MergeAll(less, ls);
    GroupPartitions(less, merged);
    forall i | 0 <= i < |Group(less, merged)|
      ensures Group(less, merged)[i] != [] && Group(less, merged)[i] == Gathered(less, ls, Group(less, merged)[i][0].key)
    {
      MergeAllKeepsOrder(less, ls, Group(less, merged)[i][0].key);
    }
  }
}

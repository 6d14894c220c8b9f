/** What a finished job has computed, and that no schedule changes it. */
module JobResult {
  import opened PairVectors
  import opened Grouping
  import opened JobProtocol
  import opened JobInvariant
  import opened JobOrder
  import opened JobReduce
  import opened JobRuns
  import opened JobEnds

  /** `groups` are the pairs of `all`, one group for each key that occurs, in
      strictly increasing key order. */
  ghost predicate IsGrouping<K, V>(less: (K, K) -> bool, groups: seq<seq<Pair<K, V>>>, all: seq<Pair<K, V>>) {
    && Increasing(less, groups)
    && (forall i :: 0 <= i < |groups| ==>
          groups[i] != [] && multiset(groups[i]) == multiset(WithKey(less, all, groups[i][0].key)))
    && (forall p :: p in all ==> exists i :: 0 <= i < |groups| && p in groups[i])
  }

  /** Picking out a key keeps every pair's number of occurrences. */
  lemma {:induction false} WithKeyCount<K, V>(less: (K, K) -> bool, pairs: seq<Pair<K, V>>, key: K, p: Pair<K, V>)
    ensures multiset(WithKey(less, pairs, key))[p] == if Equiv(less, p.key, key) then multiset(pairs)[p] else 0
  {
    if pairs != [] {
      WithKeyCount(less, pairs[..|pairs| - 1], key, p);
      assert pairs == pairs[..|pairs| - 1] + [pairs[|pairs| - 1]];
    }
  }

  lemma WithKeyPermuted<K, V>(less: (K, K) -> bool, a: seq<Pair<K, V>>, b: seq<Pair<K, V>>, key: K)
    requires multiset(a) == multiset(b)
    ensures multiset(WithKey(less, a, key)) == multiset(WithKey(less, b, key))
  {
    var x, y := multiset(WithKey(less, a, key)), multiset(WithKey(less, b, key));
    forall p: Pair<K, V> ensures x[p] == y[p] {
      WithKeyCount(less, a, key, p);
      WithKeyCount(less, b, key, p);
    }
    SameCounts(x, y);
  }

  lemma SameCounts<T>(x: multiset<T>, y: multiset<T>)
    requires forall o: T :: x[o] == y[o]
    ensures x == y
  {
  }

  /** Sorting, merging and grouping give a grouping of any permutation of the pairs. */
  lemma GroupIsGrouping<K(!new), V>(less: (K, K) -> bool, merged: seq<Pair<K, V>>, all: seq<Pair<K, V>>)
    requires StrictWeakOrder(less) && Sorted(less, merged) && multiset(merged) == multiset(all)
    ensures IsGrouping(less, Group(less, merged), all)
  {
    GroupPartitions(less, merged);
    GroupSorted(less, merged);
    var groups: seq<seq<Pair<K, V>>> := Group(less, merged);
    forall i | 0 <= i < |groups| ensures multiset(groups[i]) == multiset(WithKey(less, all, groups[i][0].key)) {
      WithKeyPermuted(less, merged, all, groups[i][0].key);
    }
    forall p | p in all ensures exists i :: 0 <= i < |groups| && p in groups[i] {
      assert p in multiset(all) && p in multiset(merged);
      var k :| 0 <= k < |merged| && merged[k] == p;
    }
  }

  /** Each group is its key's pairs of thread 0, then of thread 1, and so on. */
  ghost predicate FromThreads<K, V>(less: (K, K) -> bool, groups: seq<seq<Pair<K, V>>>, vecs: seq<seq<Pair<K, V>>>) {
    forall i :: 0 <= i < |groups| ==> groups[i] != [] && groups[i] == Gathered(less, vecs, groups[i][0].key)
  }

  /** A finished job, whatever its schedule was: its groups are a grouping of
      all inputs' pairs, each taken from the threads' sorted vectors in thread
      order, and its output is each group reduced once, the outputs of one group
      in their order. With one thread the groups come in order as well. */
  lemma FinishedResult<I, K(!new), V, O>(c: Client<I, K, V, O>, inputs: seq<I>, s: State<K, V, O>)
    requires StrictWeakOrder(c.less) && Inv(c, inputs, s) && Finished(s)
    ensures IsGrouping(c.less, s.shuffled, Mapped(c, inputs, |inputs|))
    ensures multiset(s.output) == multiset(Reduced(c, s.shuffled, |s.shuffled|))
    ensures s.stage == REDUCE_STAGE
    ensures FromThreads(c.less, s.shuffled, s.vecs)
    ensures Interleaves(c, s.shuffled, s.output)
    ensures |s.pcs| == 1 ==> s.output == Reduced(c, s.shuffled, |s.shuffled|)
  {
    hide IsGrouping, Groups, Sorted, Union, Reduced, Mapped, MapsOnce, Waiters, FromThreads, Interleaves, Woven, Solo, AllFed;
    assert s.pcs[0] == Done;
    AllMapped(c, inputs, s);
    GroupsResult(c, inputs, s);
    FinishedOrder(c, s) by {
      assert ReducerOk(c, s, 0);
    }
    assert ReducerOk(c, s, 0);
    TotalNone(OwedOutputs(c, s.shuffled, s.pcs));
    assert multiset(s.output) + multiset{} == multiset(s.output);
  }

  lemma GroupsResult<I, K(!new), V, O>(c: Client<I, K, V, O>, inputs: seq<I>, s: State<K, V, O>)
    requires StrictWeakOrder(c.less) && s.vecs != []
    requires Union(s.vecs) == multiset(Mapped(c, inputs, |inputs|)) && AllSorted(c.less, s.vecs)
    ensures IsGrouping(c.less, Groups(c, s), Mapped(c, inputs, |inputs|))
    ensures FromThreads(c.less, Groups(c, s), s.vecs)
  {
    hide IsGrouping, Union, Mapped, MergeAll, Group, Gathered;
    GroupsGather(c.less, s.vecs);
    MergeAllCorrect(c.less, s.vecs);
    GroupIsGrouping(c.less, MergeAll(c.less, s.vecs), Mapped(c, inputs, |inputs|));
  }

  // --------------------------------------------------- independence of the schedule

  /** The same groups in the same order, each up to the order of its pairs. */
  ghost predicate SameGroups<T>(g: seq<seq<T>>, h: seq<seq<T>>) {
    |g| == |h| && forall i :: 0 <= i < |g| ==> multiset(g[i]) == multiset(h[i])
  }

  lemma HeadsOf<K(!new), V>(less: (K, K) -> bool, g: seq<seq<Pair<K, V>>>, h: seq<seq<Pair<K, V>>>, all: seq<Pair<K, V>>, i: nat)
    returns (m: nat)
    requires IsGrouping(less, g, all) && IsGrouping(less, h, all) && i < |g|
    ensures m < |h| && g[i] != [] && h[m] != [] && Equiv(less, g[i][0].key, h[m][0].key)
  {
    var p := g[i][0];
    assert p in multiset(g[i]) && p in WithKey(less, all, p.key);
    WithKeyElements(less, all, p.key);
    var k :| 0 <= k < |h| && p in h[k];
    m := k;
    assert p in multiset(h[m]) && p in WithKey(less, all, h[m][0].key);
    WithKeyElements(less, all, h[m][0].key);
  }

  /** Keys at the same place are equivalent, as far as there are any. */
  lemma {:induction false} HeadsMatch<K(!new), V>(less: (K, K) -> bool, g: seq<seq<Pair<K, V>>>, h: seq<seq<Pair<K, V>>>,
                                                    all: seq<Pair<K, V>>, i: nat)
    requires StrictWeakOrder(less) && IsGrouping(less, g, all) && IsGrouping(less, h, all) && i <= |g|
    ensures i <= |h|
    ensures forall j :: 0 <= j < i ==> g[j] != [] && h[j] != [] && Equiv(less, g[j][0].key, h[j][0].key)
  {
    if i > 0 {
      HeadsMatch(less, g, h, all, i - 1);
      var m := HeadsOf(less, g, h, all, i - 1);
      NotEarlier(less, g, h, all, i - 1, m);
      var n := HeadsOf(less, h, g, all, i - 1);
      NotEarlier(less, h, g, all, i - 1, n);
      SameHead(less, g, h, i - 1, m, n);
    }
  }

  lemma NotEarlier<K(!new), V>(less: (K, K) -> bool, g: seq<seq<Pair<K, V>>>, h: seq<seq<Pair<K, V>>>,
                                   all: seq<Pair<K, V>>, i: nat, m: nat)
    requires StrictWeakOrder(less) && IsGrouping(less, g, all) && IsGrouping(less, h, all) && i < |g| && m < |h|
    requires g[i] != [] && h[m] != [] && Equiv(less, g[i][0].key, h[m][0].key)
    requires forall j :: 0 <= j < i && j < |h| ==> g[j] != [] && h[j] != [] && Equiv(less, g[j][0].key, h[j][0].key)
    ensures i <= m
  {
  }

  /** The head's class is found at the same place, or lies above what is there. */
  lemma HereOrAbove<K(!new), V>(less: (K, K) -> bool, h: seq<seq<Pair<K, V>>>, i: nat, m: nat, key: K)
    requires StrictWeakOrder(less) && Increasing(less, h) && i <= m < |h| && h[i] != [] && h[m] != []
    requires Equiv(less, key, h[m][0].key)
    ensures Equiv(less, key, h[i][0].key) || less(h[i][0].key, key)
  {
    if m > i {
      StillLess(less, h[i][0].key, h[m][0].key, key);
    }
  }

  lemma SameHead<K(!new), V>(less: (K, K) -> bool, g: seq<seq<Pair<K, V>>>, h: seq<seq<Pair<K, V>>>, i: nat, m: nat, n: nat)
    requires StrictWeakOrder(less) && Increasing(less, g) && Increasing(less, h)
    requires i <= m < |h| && i <= n < |g|
    requires g[i] != [] && h[i] != [] && g[n] != [] && h[m] != []
    requires Equiv(less, g[i][0].key, h[m][0].key) && Equiv(less, h[i][0].key, g[n][0].key)
    ensures Equiv(less, g[i][0].key, h[i][0].key)
  {
    HereOrAbove(less, h, i, m, g[i][0].key);
    HereOrAbove(less, g, i, n, h[i][0].key);
  }

  /** There is only one way to group the same pairs. */
  lemma GroupingIsUnique<K(!new), V>(less: (K, K) -> bool, g: seq<seq<Pair<K, V>>>, h: seq<seq<Pair<K, V>>>, all: seq<Pair<K, V>>)
    requires StrictWeakOrder(less) && IsGrouping(less, g, all) && IsGrouping(less, h, all)
    ensures SameGroups(g, h)
  {
    HeadsMatch(less, g, h, all, |g|);
    HeadsMatch(less, h, g, all, |h|);
    forall i | 0 <= i < |g| ensures multiset(g[i]) == multiset(h[i]) {
      WithKeySame(less, all, g[i][0].key, h[i][0].key);
    }
  }

  /** Nonempty, and all keys equivalent: what a reducer is given. */
  ghost predicate OneKey<K, V>(less: (K, K) -> bool, group: seq<Pair<K, V>>) {
    group != [] && forall p :: p in group ==> Equiv(less, p.key, group[0].key)
  }

  /** The reducer looks at its group without regard to the order. */
  ghost predicate OrderInsensitive<I, K(!new), V(!new), O>(c: Client<I, K, V, O>) {
    forall a, b :: OneKey(c.less, a) && OneKey(c.less, b) && multiset(a) == multiset(b) ==>
      multiset(c.reducer(a)) == multiset(c.reducer(b))
  }

  lemma GroupsHaveOneKey<K, V>(less: (K, K) -> bool, groups: seq<seq<Pair<K, V>>>, all: seq<Pair<K, V>>, i: nat)
    requires IsGrouping(less, groups, all) && i < |groups|
    ensures OneKey(less, groups[i])
  {
    forall p | p in groups[i] ensures Equiv(less, p.key, groups[i][0].key) {
      assert p in multiset(groups[i]) && p in WithKey(less, all, groups[i][0].key);
      WithKeyElements(less, all, groups[i][0].key);
    }
  }

  lemma {:induction false} SameReduced<I, K(!new), V(!new), O>(c: Client<I, K, V, O>, g: seq<seq<Pair<K, V>>>,
                                                                  h: seq<seq<Pair<K, V>>>, n: nat)
    requires OrderInsensitive(c) && SameGroups(g, h) && n <= |g|
    requires forall i :: 0 <= i < |g| ==> OneKey(c.less, g[i]) && OneKey(c.less, h[i])
    ensures multiset(Reduced(c, g, n)) == multiset(Reduced(c, h, n))
  {
    if n > 0 {
      SameReduced(c, g, h, n - 1);
      assert multiset(g[n - 1]) == multiset(h[n - 1]);
    }
  }

  /** Two finished jobs on the same inputs, with any two numbers of threads and
      any two interleavings, have the same groups; if the reducer does not
      look at the order within a group they have the same output. */
  lemma ScheduleIndependence<I, K(!new), V(!new), O>(c: Client<I, K, V, O>, inputs: seq<I>, s: State<K, V, O>, r: State<K, V, O>)
    requires StrictWeakOrder(c.less)
    requires Inv(c, inputs, s) && Finished(s) && Inv(c, inputs, r) && Finished(r)
    ensures SameGroups(s.shuffled, r.shuffled)
    ensures OrderInsensitive(c) ==> multiset(s.output) == multiset(r.output)
  {
    hide Inv, Finished, IsGrouping, Mapped, Reduced, OneKey, OrderInsensitive;
    var all := Mapped(c, inputs, |inputs|);
    FinishedResult(c, inputs, s);
    FinishedResult(c, inputs, r);
    GroupingIsUnique(c.less, s.shuffled, r.shuffled, all);
    if OrderInsensitive(c) {
      forall i | 0 <= i < |s.shuffled| ensures OneKey(c.less, s.shuffled[i]) && OneKey(c.less, r.shuffled[i]) {
        GroupsHaveOneKey(c.less, s.shuffled, all, i);
        GroupsHaveOneKey(c.less, r.shuffled, all, i);
      }
      SameReduced(c, s.shuffled, r.shuffled, |s.shuffled|);
    }
  }

  /** The whole framework: with any number of threads and whatever the
      scheduler does, the job comes to an end, and then every thread is done,
      the groups are those of the inputs mapped one after the other, and each
      group has been reduced once. */
  lemma JobCompletes<I(!new), K(!new), V(!new), O(!new)>(c: Client<I, K, V, O>, inputs: seq<I>, n: nat, run: nat -> State<K, V, O>)
    returns (end: nat)
    requires StrictWeakOrder(c.less) && n >= 1 && run(0) == Started(n) && Schedule(c, inputs, run)
    ensures Finished(run(end)) && run(end).stage == REDUCE_STAGE
    ensures IsGrouping(c.less, run(end).shuffled, Mapped(c, inputs, |inputs|))
    ensures multiset(run(end).output) == multiset(Reduced(c, run(end).shuffled, |run(end).shuffled|))
    ensures FromThreads(c.less, run(end).shuffled, run(end).vecs)
    ensures Interleaves(c, run(end).shuffled, run(end).output)
    ensures n == 1 ==> run(end).output == Reduced(c, run(end).shuffled, |run(end).shuffled|)
  {
    hide Inv, Schedule, Finished, IsGrouping, Mapped, Reduced, FromThreads, Interleaves;
    StartedInv(c, inputs, n);
    end := ScheduleEnds(c, inputs, run, 0);
    FinishedResult(c, inputs, run(end));
  }
}

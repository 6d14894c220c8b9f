/** Whole jobs: every interleaving keeps the invariant, none gets stuck, and
    none goes on for ever. */
module JobRuns {
  import opened PairVectors
  import opened Grouping
  import opened JobProtocol
  import opened JobInvariant
  import opened JobOrder
  import opened JobReduce

  ghost predicate Inv<I, K, V, O>(c: Client<I, K, V, O>, inputs: seq<I>, s: State<K, V, O>) {
    Together(s) && MapsOnce(c, inputs, s) && InStage(c, s) && ReducesOnce(c, s) && InOrder(c, inputs, s)
  }

  lemma StepInv<I, K, V, O>(c: Client<I, K, V, O>, inputs: seq<I>, s: State<K, V, O>, t: nat, s': State<K, V, O>)
    requires Inv(c, inputs, s) && Step(c, inputs, s, t, s')
    ensures Inv(c, inputs, s') && StageRank(s'.stage) >= StageRank(s.stage)
  {
    hide MapsOnce, InStage, ReducesOnce, Step, Mappers, PairsConserved, InOrder, Together, Reducers;
    TogetherStep(c, inputs, s, t, s');
    StageStep(c, inputs, s, t, s');
    MapsParts(c, inputs, s);
    MappersStep(c, inputs, s, t, s');
    PairsStep(c, inputs, s, t, s');
    MapsParts(c, inputs, s');
    ReducesStep(c, inputs, s, t, s');
    ReducesParts(c, s);
    InOrderStep(c, inputs, s, t, s');
  }

  lemma ReducesParts<I, K, V, O>(c: Client<I, K, V, O>, s: State<K, V, O>)
    requires ReducesOnce(c, s)
    ensures Reducers(c, s)
  {
  }

  lemma MapsParts<I, K, V, O>(c: Client<I, K, V, O>, inputs: seq<I>, s: State<K, V, O>)
    ensures MapsOnce(c, inputs, s) <==> Mappers(c, inputs, s) && PairsConserved(c, inputs, s)
  {
  }

  lemma {:induction false} EmptyUnion<T>(ls: seq<seq<T>>)
    requires forall i :: 0 <= i < |ls| ==> ls[i] == []
    ensures Union(ls) == multiset{}
  {
    if ls != [] {
      EmptyUnion(ls[1..]);
    }
  }

  lemma StartedInv<I, K, V, O>(c: Client<I, K, V, O>, inputs: seq<I>, n: nat)
    requires n >= 1
    ensures Inv(c, inputs, Started<K, V, O>(n))
  {
    hide MapsOnce, InStage, ReducesOnce, Groups, InOrder;
    StartedOrder(c, inputs, n);
    var s := Started<K, V, O>(n);
    assert Waiters(s.pcs) == {};
    StartedMaps(c, inputs, n);
    StartedStage(c, n);
    NothingOwed(c, s);
  }

  lemma StartedMaps<I, K, V, O>(c: Client<I, K, V, O>, inputs: seq<I>, n: nat)
    ensures MapsOnce(c, inputs, Started<K, V, O>(n))
  {
    hide Union, Total;
    var s := Started<K, V, O>(n);
    EmptyUnion(s.vecs);
    TotalNone(OwedPairs(c, inputs, s.pcs));
    var none: seq<Pair<K, V>> := [];
    assert Mapped(c, inputs, 0) == none && multiset(none) == multiset{};
  }

  lemma StartedStage<I, K, V, O>(c: Client<I, K, V, O>, n: nat)
    requires n >= 1
    ensures InStage(c, Started<K, V, O>(n))
  {
    hide Groups;
  }

  // ------------------------------------------------------------- phases kept apart

  /** While thread 0 shuffles, everyone has mapped and sorted, no pair is still
      to be emitted, and nobody reduces. */
  lemma ShuffleIsAlone<I, K, V, O>(c: Client<I, K, V, O>, inputs: seq<I>, s: State<K, V, O>, t: nat)
    requires Inv(c, inputs, s) && t < |s.pcs| && (s.pcs[t] == SetShuffle || s.pcs[t] == Shuffle)
    ensures t == 0
    ensures forall u: nat :: u < |s.pcs| ==> PastSort(s.pcs[u]) && Phase(s.pcs[u]) == 1 && !Reduces(s.pcs[u])
    ensures Union(s.vecs) == multiset(Mapped(c, inputs, |inputs|)) && AllSorted(c.less, s.vecs)
  {
    assert Phase(s.pcs[0]) == Phase(s.pcs[t]) == 1;
    AllMapped(c, inputs, s);
  }

  /** From the first barrier on, every input's pairs are there, sorted. */
  lemma AllMapped<I, K, V, O>(c: Client<I, K, V, O>, inputs: seq<I>, s: State<K, V, O>)
    requires Together(s) && MapsOnce(c, inputs, s) && Phase(s.pcs[0]) >= 1
    ensures forall u: nat :: u < |s.pcs| ==> PastSort(s.pcs[u]) && Phase(s.pcs[u]) == Phase(s.pcs[0])
    ensures Union(s.vecs) == multiset(Mapped(c, inputs, |inputs|)) && AllSorted(c.less, s.vecs)
  {
    hide Waiters, Union;
    forall u: nat | u < |s.pcs|
      ensures PastSort(s.pcs[u]) && !s.pcs[u].Mapping? && s.mapCounter >= |inputs| && Sorted(c.less, s.vecs[u])
    {
      assert Phase(s.pcs[u]) == Phase(s.pcs[0]) && MapperOk(c, inputs, s, u);
    }
    TotalNone(OwedPairs(c, inputs, s.pcs));
    assert s.mapCounter >= |inputs| by {
      assert PastSort(s.pcs[0]);
    }
    assert Union(s.vecs) + multiset{} == Union(s.vecs);
  }

  /** Whoever reduces finds the groups complete and everyone past the shuffle. */
  lemma ReduceFollowsShuffle<I, K, V, O>(c: Client<I, K, V, O>, inputs: seq<I>, s: State<K, V, O>, t: nat)
    requires Inv(c, inputs, s) && t < |s.pcs| && Reduces(s.pcs[t])
    ensures forall u: nat :: u < |s.pcs| ==> Phase(s.pcs[u]) == 2
    ensures s.shuffled == Groups(c, s) && s.stage == REDUCE_STAGE
  {
    hide MapsOnce, ReducesOnce, Groups, Waiters, InOrder;
    assert Phase(s.pcs[0]) == Phase(s.pcs[t]) == 2;
  }

  // -------------------------------------------------------------------- progress

  /** Any vector can be sorted. */
  lemma {:induction false} SortedExists<K(!new), V>(less: (K, K) -> bool, v: seq<Pair<K, V>>) returns (v': seq<Pair<K, V>>)
    requires StrictWeakOrder(less)
    ensures SortsTo(less, v, v')
  {
    if v == [] {
      v' := v;
    } else {
      var rest := SortedExists(less, v[1..]);
      v' := Merge(less, [v[0]], rest);
      MergeSorted(less, [v[0]], rest);
      MergeElements(less, [v[0]], rest);
      assert v == [v[0]] + v[1..];
    }
  }

  /** No deadlock: in an unfinished job some thread can take a step. */
  lemma Progress<I, K(!new), V, O>(c: Client<I, K, V, O>, inputs: seq<I>, s: State<K, V, O>) returns (t: nat, s': State<K, V, O>)
    requires StrictWeakOrder(c.less) && Inv(c, inputs, s) && !Finished(s)
    ensures Step(c, inputs, s, t, s')
  {
    t := SomeoneMoves(s);
    assert MapperOk(c, inputs, s, t) && ReducerOk(c, s, t);
    var sorted := SortedExists(c.less, s.vecs[t]);
    s' := After(c, inputs, s, t, sorted);
    hide Groups, MapsOnce, InStage, ReducesOnce, EnterBarrier, SortsTo;
    AfterSorts(c, inputs, s, t, sorted, s');
  }

  /** The choice of a sorted vector matters only when sorting. */
  lemma AfterSorts<I, K, V, O>(c: Client<I, K, V, O>, inputs: seq<I>, s: State<K, V, O>, t: nat,
                               sorted: seq<Pair<K, V>>, s': State<K, V, O>)
    requires t < |s.pcs| == |s.vecs|
    requires s.pcs[t].Mapping? ==> s.pcs[t].input < |inputs|
    requires s.pcs[t].Reducing? ==> s.pcs[t].group < |s.shuffled|
    requires s' == After(c, inputs, s, t, sorted)
    ensures |s'.vecs| == |s.vecs| && s' == After(c, inputs, s, t, s'.vecs[t])
    ensures s.pcs[t].Sort? ==> s'.vecs[t] == sorted
  {
    hide Groups, EnterBarrier;
    if s.pcs[t].Enter? {
      assert EnterBarrier(s, t, s.pcs[t].round).vecs == s.vecs by {
        EnterKeepsVecs(s, t, s.pcs[t].round);
      }
    }
  }

  lemma EnterKeepsVecs<K, V, O>(s: State<K, V, O>, t: nat, round: nat)
    requires t < |s.pcs|
    ensures EnterBarrier(s, t, round).vecs == s.vecs
  {
  }

  /** Not everyone waits: the last to arrive does not, and opens the barrier. */
  lemma SomeoneMoves<K, V, O>(s: State<K, V, O>) returns (t: nat)
    requires Together(s) && !Finished(s)
    ensures t < |s.pcs| && !s.pcs[t].Waiting? && s.pcs[t] != Done
  {
    if u: nat :| u < |s.pcs| && !s.pcs[u].Waiting? && s.pcs[u] != Done {
      t := u;
    } else {
      var v :| 0 <= v < |s.pcs| && s.pcs[v] != Done;
      forall u: nat | u < |s.pcs| ensures u in Waiters(s.pcs) {
        assert Phase(s.pcs[u]) == Phase(s.pcs[0]) == Phase(s.pcs[v]);
        assert RoundOk(s.pcs[v]) && s.pcs[v].Waiting? && Phase(s.pcs[v]) < 2;
      }
      ThreadsSize(|s.pcs|);
      SubsetSize(Threads(|s.pcs|), Waiters(s.pcs));
      assert false;
    }
  }
}

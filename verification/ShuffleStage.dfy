/** The single-threaded part of a job: the in-place pairwise merge of the
    threads' vectors and the grouping of the merged pairs. */
module ShuffleStage {
  import opened PairVectors
  import opened Grouping

  /** A vector of pairs, shared by reference. */
  class PairVec<K, V> {
    var elems: seq<Pair<K, V>>

    constructor (elems: seq<Pair<K, V>>)
      ensures this.elems == elems
    {
      this.elems := elems;
    }
  }

  ghost function Contents<K, V>(vs: seq<PairVec<K, V>>): (r: seq<seq<Pair<K, V>>>)
    reads vs
    ensures |r| == |vs| && forall i :: 0 <= i < |vs| ==> r[i] == vs[i].elems
  {
    if vs == [] then [] else [vs[0].elems] + Contents(vs[1..])
  }

  ghost predicate Distinct<T>(s: seq<T>) {
    forall i, j :: 0 <= i < j < |s| ==> s[i] != s[j]
  }

  /** Merges the second vector into the first. */
  method PairMergingHelper<K, V>(less: (K, K) -> bool, first: PairVec<K, V>, second: PairVec<K, V>)
    modifies first
    ensures first.elems == Merge(less, old(first.elems), old(second.elems))
  {
    var merged := Merge(less, first.elems, second.elems);
    first.elems := merged;
  }

  lemma {:induction false} MergeRoundAt<K, V>(less: (K, K) -> bool, ls: seq<seq<Pair<K, V>>>, k: nat)
    requires k < (|ls| + 1) / 2
    ensures MergeRound(less, ls)[k] == if 2 * k + 1 < |ls| then Merge(less, ls[2 * k], ls[2 * k + 1]) else ls[2 * k]
    decreases k
  {
    if k > 0 {
      MergeRoundAt(less, ls[2..], k - 1);
    }
  }

  /** One round in place: each even vector takes in its right neighbour. */
  method MergeNeighbours<K, V>(less: (K, K) -> bool, toMerge: seq<PairVec<K, V>>) returns (vecSet: seq<PairVec<K, V>>)
    requires Distinct(toMerge)
    modifies toMerge
    ensures |vecSet| == (|toMerge| + 1) / 2
    ensures forall k :: 0 <= k < |vecSet| ==> vecSet[k] == toMerge[2 * k]
    ensures Contents(vecSet) == MergeRound(less, old(Contents(toMerge)))
  {
    hide MergeRound, Merge, Contents;
    ghost var ls: seq<seq<Pair<K, V>>> := Contents(toMerge);
    vecSet := [];
    var n := 0;
    while n < |toMerge|
      invariant n == 2 * |vecSet| <= |toMerge| + 1
      invariant forall k :: 0 <= k < |vecSet| ==> vecSet[k] == toMerge[2 * k]
      invariant forall k :: 0 <= k < |vecSet| ==> vecSet[k].elems == MergeRound(less, ls)[k]
      invariant forall k :: n <= k < |toMerge| ==> toMerge[k].elems == ls[k]
    {
      MergeRoundAt(less, ls, |vecSet|);
      if n < |toMerge| - 1 {
        PairMergingHelper(less, toMerge[n], toMerge[n + 1]);
      }
      vecSet := vecSet + [toMerge[n]];
      n := n + 2;
    }
  }

  /** Rounds of merging until one vector is left; it is the first one. */
  method MergeVectors<K, V>(less: (K, K) -> bool, toMerge: seq<PairVec<K, V>>) returns (r: PairVec<K, V>)
    requires toMerge != [] && Distinct(toMerge)
    modifies toMerge
    ensures r == toMerge[0]
    ensures r.elems == MergeAll(less, old(Contents(toMerge)))
    decreases |toMerge|
  {
    if |toMerge| <= 1 {
      return toMerge[0];
    }
    var vecSet := MergeNeighbours(less, toMerge);
    if |vecSet| <= 1 {
      return vecSet[0];
    }
    r := MergeVectors(less, vecSet);
  }

  lemma {:induction false} GroupsNonempty<K, V>(less: (K, K) -> bool, pairs: seq<Pair<K, V>>)
    ensures forall i :: 0 <= i < |Group(less, pairs)| ==> Group(less, pairs)[i] != []
  {
    if pairs != [] {
      GroupsNonempty(less, pairs[..|pairs| - 1]);
    }
  }

  class Job<K, V> {
    var shuffledVec: seq<PairVec<K, V>>
    var shuffleCounter: nat

    constructor ()
      ensures shuffledVec == [] && shuffleCounter == 0
    {
      shuffledVec, shuffleCounter := [], 0;
    }

    /** Merges the threads' vectors, then puts every pair into the group of
        its key, found by linear search. */
    method ShuffleStage(less: (K, K) -> bool, threadsVec: seq<PairVec<K, V>>)
      requires threadsVec != [] && Distinct(threadsVec) && shuffledVec == []
      modifies this, threadsVec
      ensures Contents(shuffledVec) == Group(less, MergeAll(less, old(Contents(threadsVec))))
      ensures shuffleCounter == old(shuffleCounter) + |MergeAll(less, old(Contents(threadsVec)))|
    {
      var toShuffle: seq<Pair<K, V>>;
      if |threadsVec| > 1 {
        var merged := MergeVectors(less, threadsVec);
        toShuffle := merged.elems;
      } else {
        toShuffle := threadsVec[0].elems;
      }
      GroupPairs(less, toShuffle);
    }

    method GroupPairs(less: (K, K) -> bool, toShuffle: seq<Pair<K, V>>)
      requires shuffledVec == []
      modifies this
      ensures Contents(shuffledVec) == Group(less, toShuffle)
      ensures shuffleCounter == old(shuffleCounter) + |toShuffle|
    {
      hide Contents, AddPair;
      assert toShuffle[..0] == [];
      for i := 0 to |toShuffle|
        invariant Contents(shuffledVec) == Group(less, toShuffle[..i])
        invariant Distinct(shuffledVec) && forall v :: v in shuffledVec ==> fresh(v)
        invariant shuffleCounter == old(shuffleCounter) + i
      {
        assert toShuffle[..i + 1][..i] == toShuffle[..i];
        GroupsNonempty(less, toShuffle[..i]);
        var j := FindVec(less, toShuffle[i].key);
        assert j < |shuffledVec| ==> shuffledVec[j] in shuffledVec && fresh(shuffledVec[j]);
        AddToGroup(less, toShuffle[i], j);
        shuffleCounter := shuffleCounter + 1;
      }
      assert toShuffle[..|toShuffle|] == toShuffle;
    }

    /** The first group with an equivalent key, by linear search. */
    method FindVec(less: (K, K) -> bool, key: K) returns (j: nat)
      requires forall k :: 0 <= k < |shuffledVec| ==> shuffledVec[k].elems != []
      ensures j == FindGroup(less, Contents(shuffledVec), key)
    {
      hide Contents;
      j := 0;
      while j < |shuffledVec|
        invariant j <= |shuffledVec|
        invariant forall k :: 0 <= k < j ==> !Equiv(less, key, shuffledVec[k].elems[0].key)
      {
        var vec := shuffledVec[j];
        if !less(key, vec.elems[0].key) && !less(vec.elems[0].key, key) {
          return;
        }
        j := j + 1;
      }
    }

    /** Appends the pair to the group found, or starts a new group. */
    method AddToGroup(less: (K, K) -> bool, pair: Pair<K, V>, j: nat)
      requires Distinct(shuffledVec) && j == FindGroup(less, Contents(shuffledVec), pair.key)
      modifies this`shuffledVec, if j < |shuffledVec| then {shuffledVec[j]} else {}
      ensures Contents(shuffledVec) == AddPair(less, old(Contents(shuffledVec)), pair)
      ensures Distinct(shuffledVec)
      ensures forall v :: v in shuffledVec ==> v in old(shuffledVec) || fresh(v)
    {
      hide Contents, FindGroup;
      if j < |shuffledVec| {
        shuffledVec[j].elems := shuffledVec[j].elems + [pair];
      } else {
        var newVec := new PairVec([pair]);
        shuffledVec := shuffledVec + [newVec];
      }
    }
  }
}

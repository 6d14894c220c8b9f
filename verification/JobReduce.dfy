/** The reduce stage: each group is reduced exactly once. */
module JobReduce {
  import opened PairVectors
  import opened Grouping
  import opened JobProtocol
  import opened JobInvariant

  /** The outputs a thread has yet to emit for the group it is reducing. */
  ghost function ToOutput<I, K, V, O>(c: Client<I, K, V, O>, groups: seq<seq<Pair<K, V>>>, pc: PC): multiset<O> {
    if pc.Reducing? && pc.group < |groups| && pc.emitted <= |c.reducer(groups[pc.group])|
    then multiset(c.reducer(groups[pc.group])[pc.emitted..]) else multiset{}
  }

  ghost function AllToOutput<I, K, V, O>(c: Client<I, K, V, O>, groups: seq<seq<Pair<K, V>>>, pcs: seq<PC>): multiset<O> {
    Total(OwedOutputs(c, groups, pcs))
  }

  ghost function OwedOutputs<I, K, V, O>(c: Client<I, K, V, O>, groups: seq<seq<Pair<K, V>>>, pcs: seq<PC>): (owed: seq<multiset<O>>)
    ensures |owed| == |pcs| && forall i :: 0 <= i < |pcs| ==> owed[i] == ToOutput(c, groups, pcs[i])
  {
    seq(|pcs|, i requires 0 <= i < |pcs| => ToOutput(c, groups, pcs[i]))
  }

  /** The outputs of the first `n` groups, reduced one after the other. */
  ghost function Reduced<I, K, V, O>(c: Client<I, K, V, O>, groups: seq<seq<Pair<K, V>>>, n: nat): seq<O>
    requires n <= |groups|
  {
    if n == 0 then [] else Reduced(c, groups, n - 1) + c.reducer(groups[n - 1])
  }

  ghost predicate ReducerOk<I, K, V, O>(c: Client<I, K, V, O>, s: State<K, V, O>, t: nat)
    requires t < |s.pcs|
  {
    && (s.pcs[t].Reducing? ==> && s.pcs[t].group < |s.shuffled| && s.pcs[t].group < s.reduceCounter
                               && s.pcs[t].emitted <= |c.reducer(s.shuffled[s.pcs[t].group])|)
    && (s.pcs[t].Done? ==> s.reduceCounter >= |s.shuffled|)
  }

  ghost predicate GroupsApart(pcs: seq<PC>) {
    forall t: nat, u: nat :: t < u < |pcs| && pcs[t].Reducing? && pcs[u].Reducing? ==> pcs[t].group != pcs[u].group
  }

  ghost predicate Reducers<I, K, V, O>(c: Client<I, K, V, O>, s: State<K, V, O>) {
    GroupsApart(s.pcs) && forall t: nat :: t < |s.pcs| ==> ReducerOk(c, s, t)
  }

  /** What was output and what is still to be output are the outputs of exactly
      the groups claimed so far. */
  ghost predicate OutputConserved<I, K, V, O>(c: Client<I, K, V, O>, s: State<K, V, O>) {
    multiset(s.output) + AllToOutput(c, s.shuffled, s.pcs)
    == multiset(Reduced(c, s.shuffled, Min(s.reduceCounter, |s.shuffled|)))
  }

  ghost predicate ReducesOnce<I, K, V, O>(c: Client<I, K, V, O>, s: State<K, V, O>) {
    Reducers(c, s) && OutputConserved(c, s)
  }

  lemma ToOutputUpdate<I, K, V, O>(c: Client<I, K, V, O>, groups: seq<seq<Pair<K, V>>>, pcs: seq<PC>, t: nat, pc: PC)
    requires t < |pcs|
    ensures AllToOutput(c, groups, pcs[t := pc]) + ToOutput(c, groups, pcs[t]) == AllToOutput(c, groups, pcs) + ToOutput(c, groups, pc)
  {
    var owed := OwedOutputs(c, groups, pcs);
    assert OwedOutputs(c, groups, pcs[t := pc]) == owed[t := ToOutput(c, groups, pc)];
    TotalUpdate(owed, t, ToOutput(c, groups, pc));
  }

  lemma {:induction false} TotalNone<T>(ms: seq<multiset<T>>)
    requires forall i :: 0 <= i < |ms| ==> ms[i] == multiset{}
    ensures Total(ms) == multiset{}
  {
    if ms != [] {
      TotalNone(ms[1..]);
    }
  }

  /** Before the reduce stage nothing is owed and nothing was output. */
  lemma NothingOwed<I, K, V, O>(c: Client<I, K, V, O>, s: State<K, V, O>)
    requires Together(s) && Phase(s.pcs[0]) < 2 && s.output == [] && s.reduceCounter == 0
    ensures ReducesOnce(c, s)
  {
    forall t: nat | t < |s.pcs| ensures !s.pcs[t].Reducing? && !s.pcs[t].Done? {
      assert Phase(s.pcs[t]) == Phase(s.pcs[0]);
    }
    TotalNone(OwedOutputs(c, s.shuffled, s.pcs));
    var none: seq<O> := [];
    assert multiset(none) == multiset{};
  }

  /** The conservation law over a step in which thread `t` appends `emitted`
      to the output and `claimed` outputs become due. */
  lemma CarryOutput<I, K, V, O>(c: Client<I, K, V, O>, s: State<K, V, O>, t: nat, s': State<K, V, O>,
                                emitted: seq<O>, claimed: multiset<O>)
    requires OutputConserved(c, s) && t < |s.pcs| == |s'.pcs|
    requires s'.pcs == s.pcs[t := s'.pcs[t]] && s'.shuffled == s.shuffled && s'.output == s.output + emitted
    requires multiset(emitted) + ToOutput(c, s.shuffled, s'.pcs[t]) == ToOutput(c, s.shuffled, s.pcs[t]) + claimed
    requires multiset(Reduced(c, s.shuffled, Min(s'.reduceCounter, |s.shuffled|)))
          == multiset(Reduced(c, s.shuffled, Min(s.reduceCounter, |s.shuffled|))) + claimed
    ensures OutputConserved(c, s')
  {
    var m := multiset(Reduced(c, s.shuffled, Min(s.reduceCounter, |s.shuffled|)));
    var m' := multiset(Reduced(c, s.shuffled, Min(s'.reduceCounter, |s.shuffled|)));
    var e0, e1 := ToOutput(c, s.shuffled, s.pcs[t]), ToOutput(c, s.shuffled, s'.pcs[t]);
    hide *;
    OutputIs(c, s);
    OutputIs(c, s');
    ToOutputUpdate(c, s.shuffled, s.pcs, t, s'.pcs[t]);
    assert multiset(s'.output) + multiset{} == multiset(s.output) + multiset(emitted);
    assert m + (multiset(emitted) + e1) == m' + (multiset{} + e0);
    Balance(multiset(s.output), AllToOutput(c, s.shuffled, s.pcs), m,
            multiset(s'.output), AllToOutput(c, s'.shuffled, s'.pcs), m', multiset{}, multiset(emitted), e0, e1);
  }

  lemma OutputIs<I, K, V, O>(c: Client<I, K, V, O>, s: State<K, V, O>)
    ensures OutputConserved(c, s) <==>
      multiset(s.output) + AllToOutput(c, s.shuffled, s.pcs)
      == multiset(Reduced(c, s.shuffled, Min(s.reduceCounter, |s.shuffled|)))
  {
  }

  /** Every step of the reduce stage conserves the outputs. */
  lemma OutputStep<I, K, V, O>(c: Client<I, K, V, O>, inputs: seq<I>, s: State<K, V, O>, t: nat, s': State<K, V, O>)
    requires ReducesOnce(c, s) && Step(c, inputs, s, t, s') && Phase(s.pcs[t]) == 2
    ensures OutputConserved(c, s')
  {
    hide OutputConserved, AllToOutput, GroupsApart, Groups;
    assert ReducerOk(c, s, t);
    if s.pcs[t].Reducing? {
      OutputEmit(c, inputs, s, t, s');
    } else if s.pcs[t].ReduceClaim? && s.reduceCounter < |s.shuffled| {
      OutputClaim(c, inputs, s, t, s');
    } else {
      assert s.output == s.output + [];
      CarryOutput(c, s, t, s', [], multiset{});
    }
  }

  lemma OutputEmit<I, K, V, O>(c: Client<I, K, V, O>, inputs: seq<I>, s: State<K, V, O>, t: nat, s': State<K, V, O>)
    requires OutputConserved(c, s) && Step(c, inputs, s, t, s') && s.pcs[t].Reducing? && ReducerOk(c, s, t)
    ensures OutputConserved(c, s')
  {
    hide OutputConserved, AllToOutput, Groups;
    var k, outs := s.pcs[t].emitted, c.reducer(s.shuffled[s.pcs[t].group]);
    if k < |outs| {
      assert outs[k..] == [outs[k]] + outs[k + 1..];
      CarryOutput(c, s, t, s', [outs[k]], multiset{});
    } else {
      assert outs[k..] == [];
      assert s.output == s.output + [];
      CarryOutput(c, s, t, s', [], multiset{});
    }
  }

  lemma OutputClaim<I, K, V, O>(c: Client<I, K, V, O>, inputs: seq<I>, s: State<K, V, O>, t: nat, s': State<K, V, O>)
    requires OutputConserved(c, s) && Step(c, inputs, s, t, s') && s.pcs[t].ReduceClaim? && s.reduceCounter < |s.shuffled|
    ensures OutputConserved(c, s')
  {
    hide OutputConserved, AllToOutput, Groups;
    var outs := c.reducer(s.shuffled[s.reduceCounter]);
    assert outs[0..] == outs;
    assert s.output == s.output + [];
    CarryOutput(c, s, t, s', [], multiset(outs));
  }

  lemma ReducersStep<I, K, V, O>(c: Client<I, K, V, O>, inputs: seq<I>, s: State<K, V, O>, t: nat, s': State<K, V, O>)
    requires Reducers(c, s) && Step(c, inputs, s, t, s') && Phase(s.pcs[t]) == 2 && !s.pcs[t].Enter?
    ensures Reducers(c, s')
  {
    assert ReducerOk(c, s, t);
    assert s'.pcs == s.pcs[t := s'.pcs[t]] && s'.shuffled == s.shuffled;
    forall u: nat | u < |s'.pcs| ensures ReducerOk(c, s', u) {
      assert ReducerOk(c, s, u);
    }
    forall u: nat | u < |s.pcs| && s.pcs[u].Reducing? ensures s.pcs[u].group < s.reduceCounter {
      assert ReducerOk(c, s, u);
    }
  }

  /** Every step keeps the reduce stage in order. */
  lemma ReducesStep<I, K, V, O>(c: Client<I, K, V, O>, inputs: seq<I>, s: State<K, V, O>, t: nat, s': State<K, V, O>)
    requires Together(s) && InStage(c, s) && ReducesOnce(c, s) && Step(c, inputs, s, t, s')
    requires Together(s') && InStage(c, s')
    ensures ReducesOnce(c, s')
  {
    assert Phase(s.pcs[0]) == Phase(s.pcs[t]) && RoundOk(s.pcs[t]);
    if Phase(s'.pcs[0]) < 2 {
      NothingOwed(c, s');
    } else if Phase(s.pcs[t]) == 2 {
      ReducersStep(c, inputs, s, t, s');
      OutputStep(c, inputs, s, t, s');
    } else {
      SecondBarrierOpens(c, inputs, s, t, s');
    }
  }

  /** The step that opens the second barrier. */
  lemma SecondBarrierOpens<I, K, V, O>(c: Client<I, K, V, O>, inputs: seq<I>, s: State<K, V, O>, t: nat, s': State<K, V, O>)
    requires Together(s) && InStage(c, s) && Step(c, inputs, s, t, s') && Together(s')
    requires Phase(s.pcs[0]) < 2 && Phase(s'.pcs[0]) == 2
    ensures ReducesOnce(c, s')
  {
    hide Groups, Waiters;
    assert s.pcs[t].Enter? && s.count + 1 >= |s.pcs|;
    EnterTogether(s, t, s.pcs[t].round);
    TotalNone(OwedOutputs(c, s'.shuffled, s'.pcs));
    var none: seq<O> := [];
    assert multiset(none) == multiset{};
  }
}

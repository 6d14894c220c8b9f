/** The order of what is emitted: within each thread's vector, and within the
    output. */
module JobOrder {
  import opened PairVectors
  import opened Grouping
  import opened JobProtocol
  import opened JobInvariant
  import opened JobReduce

  /** Emitting only ever appends: the output grows at its end, and so does a
      thread's vector, until that thread sorts it. */
  lemma EmitsAppend<I, K, V, O>(c: Client<I, K, V, O>, inputs: seq<I>, s: State<K, V, O>, t: nat, s': State<K, V, O>)
    requires Step(c, inputs, s, t, s')
    ensures s.output <= s'.output
    ensures forall u: nat :: u < |s.vecs| && !(u == t && s.pcs[t] == Sort) ==> s.vecs[u] <= s'.vecs[u]
  {
    hide Groups, SortsTo;
  }

  // ------------------------------------------------------------------ the map stage

  /** The pairs of these inputs, one after the other. */
  ghost function Flat<I, K, V, O>(c: Client<I, K, V, O>, inputs: seq<I>, claims: seq<nat>): seq<Pair<K, V>>
    requires forall i :: 0 <= i < |claims| ==> claims[i] < |inputs|
  {
    if claims == [] then []
    else Flat(c, inputs, claims[..|claims| - 1]) + c.mapper(inputs[claims[|claims| - 1]])
  }

  /** Inputs in the order of their numbers, all below `bound`. */
  ghost predicate Claims<I>(inputs: seq<I>, claims: seq<nat>, bound: nat) {
    && (forall i :: 0 <= i < |claims| ==> claims[i] < bound && claims[i] < |inputs|)
    && (forall i, j :: 0 <= i < j < |claims| ==> claims[i] < claims[j])
  }

  ghost predicate Holds<I, K, V, O>(c: Client<I, K, V, O>, inputs: seq<I>, vec: seq<Pair<K, V>>, bound: nat, more: seq<Pair<K, V>>) {
    exists claims: seq<nat> :: Claims(inputs, claims, bound) && vec == Flat(c, inputs, claims) + more
  }

  /** Until it is sorted, a thread's vector holds the pairs of the inputs the
      thread claimed, in the order claimed, each input's as emitted. */
  ghost predicate Fed<I, K, V, O>(c: Client<I, K, V, O>, inputs: seq<I>, pc: PC, counter: nat, vec: seq<Pair<K, V>>) {
    match pc
    case Start | MapClaim | Sort => Holds(c, inputs, vec, counter, [])
    case Mapping(i, k) => i < |inputs| && k <= |c.mapper(inputs[i])| && Holds(c, inputs, vec, i, c.mapper(inputs[i])[..k])
    case _ => true
  }

  ghost predicate AllFed<I, K, V, O>(c: Client<I, K, V, O>, inputs: seq<I>, s: State<K, V, O>) {
    |s.pcs| == |s.vecs| && forall t: nat :: t < |s.pcs| ==> Fed(c, inputs, s.pcs[t], s.mapCounter, s.vecs[t])
  }

  lemma HoldsMore<I, K, V, O>(c: Client<I, K, V, O>, inputs: seq<I>, vec: seq<Pair<K, V>>, bound: nat, bound': nat, more: seq<Pair<K, V>>)
    requires Holds(c, inputs, vec, bound, more) && bound <= bound'
    ensures Holds(c, inputs, vec, bound', more)
  {
    var claims: seq<nat> :| Claims(inputs, claims, bound) && vec == Flat(c, inputs, claims) + more;
    assert Claims(inputs, claims, bound');
  }

  lemma HoldsEmit<I, K, V, O>(c: Client<I, K, V, O>, inputs: seq<I>, vec: seq<Pair<K, V>>, bound: nat, more: seq<Pair<K, V>>, p: Pair<K, V>)
    requires Holds(c, inputs, vec, bound, more)
    ensures Holds(c, inputs, vec + [p], bound, more + [p])
  {
    var claims: seq<nat> :| Claims(inputs, claims, bound) && vec == Flat(c, inputs, claims) + more;
    assert vec + [p] == Flat(c, inputs, claims) + (more + [p]);
  }

  lemma FlatAdd<I, K, V, O>(c: Client<I, K, V, O>, inputs: seq<I>, claims: seq<nat>, i: nat)
    requires i < |inputs| && forall j :: 0 <= j < |claims| ==> claims[j] < |inputs|
    ensures Flat(c, inputs, claims + [i]) == Flat(c, inputs, claims) + c.mapper(inputs[i])
  {
    assert (claims + [i])[..|claims|] == claims;
  }

  lemma HoldsInput<I, K, V, O>(c: Client<I, K, V, O>, inputs: seq<I>, vec: seq<Pair<K, V>>, i: nat, counter: nat)
    requires i < |inputs| && i < counter && Holds(c, inputs, vec, i, c.mapper(inputs[i]))
    ensures Holds(c, inputs, vec, counter, [])
  {
    hide Flat;
    var claims: seq<nat> :| Claims(inputs, claims, i) && vec == Flat(c, inputs, claims) + c.mapper(inputs[i]);
    FlatAdd(c, inputs, claims, i);
    assert Claims(inputs, claims + [i], counter);
    assert vec == Flat(c, inputs, claims + [i]) + [];
  }

  lemma OthersFed<I, K, V, O>(c: Client<I, K, V, O>, inputs: seq<I>, pc: PC, counter: nat, counter': nat, vec: seq<Pair<K, V>>)
    requires Fed(c, inputs, pc, counter, vec) && counter <= counter'
    ensures Fed(c, inputs, pc, counter', vec)
  {
    hide Holds;
    if pc.Start? || pc.MapClaim? || pc.Sort? {
      HoldsMore(c, inputs, vec, counter, counter', []);
    }
  }

  lemma FedStep<I, K, V, O>(c: Client<I, K, V, O>, inputs: seq<I>, s: State<K, V, O>, t: nat, s': State<K, V, O>)
    requires Step(c, inputs, s, t, s') && MapperOk(c, inputs, s, t) && !s.pcs[t].Enter?
    requires Fed(c, inputs, s.pcs[t], s.mapCounter, s.vecs[t])
    ensures Fed(c, inputs, s'.pcs[t], s'.mapCounter, s'.vecs[t])
  {
    hide Holds, Groups, Sorted, SortsTo;
    match s.pcs[t]
    case MapClaim =>
      if s.mapCounter < |inputs| {
        assert c.mapper(inputs[s.mapCounter])[..0] == [];
      } else {
        HoldsMore(c, inputs, s.vecs[t], s.mapCounter, s.mapCounter + 1, []);
      }
    case Mapping(i, k) =>
      var pairs := c.mapper(inputs[i]);
      if k < |pairs| {
        assert pairs[..k + 1] == pairs[..k] + [pairs[k]];
        HoldsEmit(c, inputs, s.vecs[t], i, pairs[..k], pairs[k]);
      } else {
        assert pairs[..k] == pairs;
        HoldsInput(c, inputs, s.vecs[t], i, s.mapCounter);
      }
    case _ =>
  }

  lemma AllFedStep<I, K, V, O>(c: Client<I, K, V, O>, inputs: seq<I>, s: State<K, V, O>, t: nat, s': State<K, V, O>)
    requires AllFed(c, inputs, s) && Step(c, inputs, s, t, s') && MapperOk(c, inputs, s, t)
    ensures AllFed(c, inputs, s')
  {
    hide Fed, MapperOk, Groups, SortsTo;
    if !s.pcs[t].Enter? {
      FedStep(c, inputs, s, t, s');
      forall u: nat | u < |s'.pcs| ensures Fed(c, inputs, s'.pcs[u], s'.mapCounter, s'.vecs[u]) {
        if u != t {
          OthersFed(c, inputs, s.pcs[u], s.mapCounter, s'.mapCounter, s.vecs[u]);
        }
      }
    } else {
      forall u: nat | u < |s'.pcs| ensures Fed(c, inputs, s'.pcs[u], s'.mapCounter, s'.vecs[u]) {
        if s'.pcs[u] != s.pcs[u] {
          AtBarrierFed(c, inputs, s'.pcs[u], s'.mapCounter, s'.vecs[u]);
        }
      }
    }
  }

  lemma AtBarrierFed<I, K, V, O>(c: Client<I, K, V, O>, inputs: seq<I>, pc: PC, counter: nat, vec: seq<Pair<K, V>>)
    requires !pc.Start? && !pc.MapClaim? && !pc.Mapping? && !pc.Sort?
    ensures Fed(c, inputs, pc, counter, vec)
  {
  }

  // --------------------------------------------------------------- the reduce stage

  /** The outputs that belong to group `g`, in their order. */
  ghost function Of<O>(output: seq<O>, owner: seq<nat>, g: nat): seq<O>
    requires |owner| == |output|
  {
    if output == [] then []
    else
      var n := |output| - 1;
      Of(output[..n], owner[..n], g) + if owner[n] == g then [output[n]] else []
  }

  lemma OfAppend<O>(output: seq<O>, owner: seq<nat>, o: O, h: nat, g: nat)
    requires |owner| == |output|
    ensures Of(output + [o], owner + [h], g) == Of(output, owner, g) + if h == g then [o] else []
  {
    assert (output + [o])[..|output|] == output && (owner + [h])[..|output|] == owner;
  }

  ghost predicate Nobody(pcs: seq<PC>, g: nat) {
    forall t: nat :: t < |pcs| && pcs[t].Reducing? ==> pcs[t].group != g
  }

  /** Each output belongs to a group; what belongs to a group is what its
      reducer has emitted so far, in order. */
  ghost predicate IsWeave<I, K, V, O>(c: Client<I, K, V, O>, s: State<K, V, O>, owner: seq<nat>) {
    && |owner| == |s.output| && (forall g :: g in owner ==> g < |s.shuffled|)
    && (forall t: nat :: t < |s.pcs| && s.pcs[t].Reducing? ==>
          && s.pcs[t].group < |s.shuffled| && s.pcs[t].emitted <= |c.reducer(s.shuffled[s.pcs[t].group])|
          && Of(s.output, owner, s.pcs[t].group) == c.reducer(s.shuffled[s.pcs[t].group])[..s.pcs[t].emitted])
    && (forall g: nat :: s.reduceCounter <= g < |s.shuffled| ==> Of(s.output, owner, g) == [])
    && (forall g: nat :: g < s.reduceCounter && g < |s.shuffled| && Nobody(s.pcs, g) ==>
          Of(s.output, owner, g) == c.reducer(s.shuffled[g]))
  }

  ghost predicate Woven<I, K, V, O>(c: Client<I, K, V, O>, s: State<K, V, O>) {
    exists owner: seq<nat> :: IsWeave(c, s, owner)
  }

  lemma NothingWoven<I, K, V, O>(c: Client<I, K, V, O>, s: State<K, V, O>)
    requires s.output == [] && s.reduceCounter == 0 && forall t: nat :: t < |s.pcs| ==> !s.pcs[t].Reducing?
    ensures Woven(c, s)
  {
    assert IsWeave(c, s, []);
  }

  lemma EmitWeave<I, K, V, O>(c: Client<I, K, V, O>, inputs: seq<I>, s: State<K, V, O>, t: nat, s': State<K, V, O>, owner: seq<nat>)
    requires IsWeave(c, s, owner) && Step(c, inputs, s, t, s') && s.pcs[t].Reducing? && Reducers(c, s)
    requires s.pcs[t].emitted < |c.reducer(s.shuffled[s.pcs[t].group])|
    ensures IsWeave(c, s', owner + [s.pcs[t].group])
  {
    hide Groups, SortsTo, Of;
    var g, k := s.pcs[t].group, s.pcs[t].emitted;
    var outs := c.reducer(s.shuffled[g]);
    assert ReducerOk(c, s, t);
    assert outs[..k + 1] == outs[..k] + [outs[k]];
    forall h: nat ensures Of(s'.output, owner + [g], h) == Of(s.output, owner, h) + if h == g then [outs[k]] else [] {
      OfAppend(s.output, owner, outs[k], g, h);
    }
    assert s'.pcs == s.pcs[t := Reducing(g, k + 1)];
    forall h: nat | Nobody(s'.pcs, h) ensures Nobody(s.pcs, h) && h != g {
      NobodyBefore(s.pcs, t, s'.pcs[t], h);
    }
    forall u: nat | u < |s'.pcs| && u != t && s'.pcs[u].Reducing? ensures s.pcs[u] == s'.pcs[u] && s.pcs[u].group != g {
    }
  }

  lemma NobodyBefore(pcs: seq<PC>, t: nat, pc: PC, h: nat)
    requires t < |pcs| && Nobody(pcs[t := pc], h)
    ensures (pcs[t].Reducing? && pcs[t].group == h) || Nobody(pcs, h)
    ensures pc.Reducing? ==> pc.group != h
  {
    forall u: nat | u < |pcs| && u != t && pcs[u].Reducing? ensures pcs[u].group != h {
      assert pcs[t := pc][u] == pcs[u];
    }
    assert pcs[t := pc][t] == pc;
  }

  /** The other steps of the reduce stage leave the output alone. */
  lemma SameWeave<I, K, V, O>(c: Client<I, K, V, O>, inputs: seq<I>, s: State<K, V, O>, t: nat, s': State<K, V, O>, owner: seq<nat>)
    requires IsWeave(c, s, owner) && Step(c, inputs, s, t, s') && Reducers(c, s) && Phase(s.pcs[t]) == 2
    requires s.pcs[t].Reducing? ==> s.pcs[t].emitted == |c.reducer(s.shuffled[s.pcs[t].group])|
    ensures IsWeave(c, s', owner)
  {
    hide Groups, SortsTo, Of;
    assert ReducerOk(c, s, t);
    assert s'.pcs == s.pcs[t := s'.pcs[t]] && s'.output == s.output && s'.shuffled == s.shuffled;
    if s.pcs[t].Reducing? {
      var outs := c.reducer(s.shuffled[s.pcs[t].group]);
      assert outs[..|outs|] == outs;
    }
    if s'.pcs[t].Reducing? {
      assert c.reducer(s.shuffled[s'.pcs[t].group])[..0] == [];
    }
    forall h: nat | Nobody(s'.pcs, h) ensures (s.pcs[t].Reducing? && s.pcs[t].group == h) || Nobody(s.pcs, h) {
      NobodyBefore(s.pcs, t, s'.pcs[t], h);
    }
    forall u: nat | u < |s'.pcs| && u != t ensures s'.pcs[u] == s.pcs[u] {
    }
    forall h: nat | h < s'.reduceCounter && Nobody(s'.pcs, h) && h < |s.shuffled| ensures h < s.reduceCounter {
      if s.pcs[t].ReduceClaim? {
        NobodyBefore(s.pcs, t, s'.pcs[t], h);
      }
    }
  }

  lemma WovenStep<I, K, V, O>(c: Client<I, K, V, O>, inputs: seq<I>, s: State<K, V, O>, t: nat, s': State<K, V, O>)
    requires Woven(c, s) && Step(c, inputs, s, t, s') && Reducers(c, s) && Phase(s.pcs[t]) == 2
    ensures Woven(c, s')
  {
    hide IsWeave, Groups, SortsTo, EnterBarrier;
    assert ReducerOk(c, s, t);
    var owner: seq<nat> :| IsWeave(c, s, owner);
    if s.pcs[t].Reducing? && s.pcs[t].emitted < |c.reducer(s.shuffled[s.pcs[t].group])| {
      EmitWeave(c, inputs, s, t, s', owner);
    } else {
      SameWeave(c, inputs, s, t, s', owner);
    }
  }

  // ------------------------------------------------------------- with one thread

  /** A thread that is alone has reduced the groups in their order. */
  ghost predicate Solo<I, K, V, O>(c: Client<I, K, V, O>, s: State<K, V, O>) {
    |s.pcs| == 1 ==>
      if s.pcs[0].Reducing? then
        && s.pcs[0].group < |s.shuffled| && s.reduceCounter == s.pcs[0].group + 1
        && s.pcs[0].emitted <= |c.reducer(s.shuffled[s.pcs[0].group])|
        && s.output == Reduced(c, s.shuffled, s.pcs[0].group) + c.reducer(s.shuffled[s.pcs[0].group])[..s.pcs[0].emitted]
      else s.output == Reduced(c, s.shuffled, Min(s.reduceCounter, |s.shuffled|))
  }

  lemma SoloStep<I, K, V, O>(c: Client<I, K, V, O>, inputs: seq<I>, s: State<K, V, O>, t: nat, s': State<K, V, O>)
    requires Solo(c, s) && Step(c, inputs, s, t, s') && Phase(s.pcs[t]) == 2
    ensures Solo(c, s')
  {
    hide Groups, SortsTo, EnterBarrier;
    assert |s'.pcs| == |s.pcs|;
    if |s.pcs| == 1 {
      match s.pcs[0]
      case ReduceClaim =>
        if s.reduceCounter < |s.shuffled| {
          assert c.reducer(s.shuffled[s.reduceCounter])[..0] == [];
        }
      case Reducing(g, k) =>
        var outs := c.reducer(s.shuffled[g]);
        if k < |outs| {
          assert outs[..k + 1] == outs[..k] + [outs[k]];
        } else {
          assert outs[..k] == outs;
        }
      case _ =>
    }
  }

  // ------------------------------------------------------------------- every step

  ghost predicate InOrder<I, K, V, O>(c: Client<I, K, V, O>, inputs: seq<I>, s: State<K, V, O>) {
    AllFed(c, inputs, s) && Woven(c, s) && Solo(c, s)
  }

  lemma NothingInOrder<I, K, V, O>(c: Client<I, K, V, O>, s: State<K, V, O>)
    requires s.output == [] && s.reduceCounter == 0 && forall t: nat :: t < |s.pcs| ==> !s.pcs[t].Reducing?
    ensures Woven(c, s) && Solo(c, s)
  {
    NothingWoven(c, s);
    hide Woven;
  }

  /** Every step keeps what is emitted in order. */
  lemma InOrderStep<I, K, V, O>(c: Client<I, K, V, O>, inputs: seq<I>, s: State<K, V, O>, t: nat, s': State<K, V, O>)
    requires Together(s) && Mappers(c, inputs, s) && InStage(c, s) && Reducers(c, s) && InOrder(c, inputs, s)
    requires Step(c, inputs, s, t, s') && Together(s') && InStage(c, s')
    ensures InOrder(c, inputs, s')
  {
    hide *;
    StepsFrom(c, inputs, s, t, s');
    OrderParts(c, inputs, s);
    OrderParts(c, inputs, s');
    AllFedStep(c, inputs, s, t, s');
    if Phase(s.pcs[t]) == 2 {
      WovenStep(c, inputs, s, t, s');
      SoloStep(c, inputs, s, t, s');
    } else {
      BeforeReducing(c, inputs, s, t, s');
      NothingInOrder(c, s');
    }
  }

  lemma OrderParts<I, K, V, O>(c: Client<I, K, V, O>, inputs: seq<I>, s: State<K, V, O>)
    ensures InOrder(c, inputs, s) <==> AllFed(c, inputs, s) && Woven(c, s) && Solo(c, s)
  {
  }

  lemma StepsFrom<I, K, V, O>(c: Client<I, K, V, O>, inputs: seq<I>, s: State<K, V, O>, t: nat, s': State<K, V, O>)
    requires Step(c, inputs, s, t, s') && Mappers(c, inputs, s)
    ensures t < |s.pcs| == |s.vecs| && MapperOk(c, inputs, s, t) && Phase(s.pcs[t]) <= 2
  {
    hide After;
  }

  lemma BeforeReducing<I, K, V, O>(c: Client<I, K, V, O>, inputs: seq<I>, s: State<K, V, O>, t: nat, s': State<K, V, O>)
    requires Together(s) && InStage(c, s) && Step(c, inputs, s, t, s') && Together(s') && Phase(s.pcs[t]) < 2
    ensures s'.output == [] && s'.reduceCounter == 0
    ensures forall u: nat :: u < |s'.pcs| ==> !s'.pcs[u].Reducing?
  {
    hide Groups, SortsTo, Waiters, After, EnterBarrier;
    assert Phase(s.pcs[0]) == Phase(s.pcs[t]);
    NotYet(c, inputs, s, t, s');
    forall u: nat | u < |s'.pcs| ensures !s'.pcs[u].Reducing? {
      assert Phase(s.pcs[u]) == Phase(s.pcs[0]);
    }
  }

  lemma NotYet<I, K, V, O>(c: Client<I, K, V, O>, inputs: seq<I>, s: State<K, V, O>, t: nat, s': State<K, V, O>)
    requires Step(c, inputs, s, t, s') && Phase(s.pcs[t]) < 2
    ensures s'.output == s.output && s'.reduceCounter == s.reduceCounter && |s'.pcs| == |s.pcs|
    ensures forall u: nat :: u < |s.pcs| && s'.pcs[u].Reducing? ==> s.pcs[u].Reducing?
  {
    hide Groups, SortsTo;
  }

  /** The output is the groups' outputs interleaved, each group's in its order. */
  ghost predicate Interleaves<I, K, V, O>(c: Client<I, K, V, O>, groups: seq<seq<Pair<K, V>>>, output: seq<O>) {
    exists owner: seq<nat> ::
      && |owner| == |output| && (forall i :: 0 <= i < |owner| ==> owner[i] < |groups|)
      && forall g: nat :: g < |groups| ==> Of(output, owner, g) == c.reducer(groups[g])
  }

  lemma FinishedOrder<I, K, V, O>(c: Client<I, K, V, O>, s: State<K, V, O>)
    requires Woven(c, s) && Solo(c, s) && Finished(s) && s.pcs != [] && s.reduceCounter >= |s.shuffled|
    ensures Interleaves(c, s.shuffled, s.output)
    ensures |s.pcs| == 1 ==> s.output == Reduced(c, s.shuffled, |s.shuffled|)
  {
    hide Of, Reduced;
    var owner: seq<nat> :| IsWeave(c, s, owner);
    forall g: nat ensures Nobody(s.pcs, g) {
    }
    forall i | 0 <= i < |owner| ensures owner[i] < |s.shuffled| {
      assert owner[i] in owner;
    }
  }

  lemma StartedOrder<I, K, V, O>(c: Client<I, K, V, O>, inputs: seq<I>, n: nat)
    ensures InOrder(c, inputs, Started<K, V, O>(n))
  {
    var s := Started<K, V, O>(n);
    NothingInOrder(c, s);
    hide Woven, Solo;
    var none: seq<Pair<K, V>> := [];
    assert Claims(inputs, [], 0) && none == Flat(c, inputs, []) + none;
  }
}

/** What holds at every moment of a job, in every interleaving. */
module JobInvariant {
  import opened PairVectors
  import opened Grouping
  import opened JobProtocol

  /** 0: up to the first barrier; 1: between the barriers; 2: after the second. */
  function Phase(pc: PC): nat {
    match pc
    case Start | MapClaim | Mapping(_, _) | Sort => 0
    case Enter(round) => if round == 1 then 0 else 1
    case Waiting(round) => if round == 1 then 0 else 1
    case Leaving(round) => if round == 1 then 1 else 2
    case SetShuffle | Shuffle => 1
    case CheckReduce | SetReduce | ReduceClaim | Reducing(_, _) | Done => 2
  }

  predicate RoundOk(pc: PC) {
    (pc.Enter? || pc.Waiting? || pc.Leaving?) ==> pc.round == 1 || pc.round == 2
  }

  ghost function Waiters(pcs: seq<PC>): set<nat> {
    set t: nat | t < |pcs| && pcs[t].Waiting?
  }

  ghost function Threads(n: nat): set<nat> {
    if n == 0 then {} else Threads(n - 1) + {n - 1}
  }

  /** The barrier: everyone is in the same phase, the count is the number of
      threads waiting, and never all of them wait. */
  ghost predicate Together<K, V, O>(s: State<K, V, O>) {
    && 0 < |s.pcs| == |s.vecs|
    && (forall t: nat :: t < |s.pcs| ==>
          && RoundOk(s.pcs[t]) && Phase(s.pcs[t]) == Phase(s.pcs[0])
          && (s.pcs[t] == SetShuffle || s.pcs[t] == Shuffle ==> t == 0))
    && s.count == |Waiters(s.pcs)| < |s.pcs|
  }

  // ------------------------------------------------------------------- counting

  lemma {:induction false} SubsetSize<T>(a: set<T>, b: set<T>)
    requires a <= b
    ensures |a| <= |b| && (|a| == |b| ==> a == b)
  {
    if a != {} {
      var x :| x in a;
      SubsetSize(a - {x}, b - {x});
      assert b == (b - {x}) + {x} && a == (a - {x}) + {x};
    }
  }

  lemma {:induction false} ThreadsSize(n: nat)
    ensures |Threads(n)| == n && forall t: nat :: t in Threads(n) <==> t < n
  {
    if n > 0 {
      ThreadsSize(n - 1);
    }
  }

  /** The last thread to enter the barrier finds all others waiting. */
  lemma OthersWait(pcs: seq<PC>, t: nat)
    requires t < |pcs| && !pcs[t].Waiting? && |Waiters(pcs)| + 1 >= |pcs|
    ensures forall u: nat :: u < |pcs| && u != t ==> pcs[u].Waiting?
  {
    ThreadsSize(|pcs|);
    var others := Threads(|pcs|) - {t};
    assert |others| == |pcs| - 1;
    SubsetSize(Waiters(pcs), others);
    forall u: nat | u < |pcs| && u != t ensures pcs[u].Waiting? {
      assert u in others;
    }
  }

  lemma MoveWaiters(pcs: seq<PC>, t: nat, pc: PC)
    requires t < |pcs| && !pcs[t].Waiting?
    ensures Waiters(pcs[t := pc]) == if pc.Waiting? then Waiters(pcs) + {t} else Waiters(pcs)
    ensures t !in Waiters(pcs)
  {
  }

  /** Every step of every thread keeps the barrier in order, on both uses. */
  lemma TogetherStep<I, K, V, O>(c: Client<I, K, V, O>, inputs: seq<I>, s: State<K, V, O>, t: nat, s': State<K, V, O>)
    requires Together(s) && Step(c, inputs, s, t, s')
    ensures Together(s')
  {
    if s.pcs[t].Enter? {
      EnterTogether(s, t, s.pcs[t].round);
    } else {
      MoveTogether(s, t, s'.pcs[t], s');
    }
  }

  lemma MoveTogether<K, V, O>(s: State<K, V, O>, t: nat, pc: PC, s': State<K, V, O>)
    requires Together(s) && t < |s.pcs| && !s.pcs[t].Waiting? && !pc.Waiting?
    requires s'.pcs == s.pcs[t := pc] && s'.count == s.count && |s'.vecs| == |s.vecs|
    requires Phase(pc) == Phase(s.pcs[t]) && RoundOk(pc) && (pc == SetShuffle || pc == Shuffle ==> t == 0)
    ensures Together(s')
  {
    MoveWaiters(s.pcs, t, pc);
  }

  lemma EnterTogether<K, V, O>(s: State<K, V, O>, t: nat, round: nat)
    requires Together(s) && t < |s.pcs| && s.pcs[t] == Enter(round)
    ensures Together(EnterBarrier(s, t, round))
    ensures s.count + 1 >= |s.pcs| ==>
              forall u :: 0 <= u < |s.pcs| ==> EnterBarrier(s, t, round).pcs[u] == Leaving(round)
  {
    if s.count + 1 < |s.pcs| {
      MoveWaiters(s.pcs, t, Waiting(round));
    } else {
      LastOpens(s, t, round);
    }
  }

  /** The last to enter lets everyone go. */
  lemma LastOpens<K, V, O>(s: State<K, V, O>, t: nat, round: nat)
    requires Together(s) && t < |s.pcs| && s.pcs[t] == Enter(round) && s.count + 1 >= |s.pcs|
    ensures Together(EnterBarrier(s, t, round))
    ensures forall u :: 0 <= u < |s.pcs| ==> EnterBarrier(s, t, round).pcs[u] == Leaving(round)
  {
    var s' := EnterBarrier(s, t, round);
    AllLeave(s, t, round);
    assert Waiters(s'.pcs) == {};
    assert RoundOk(s.pcs[t]);
  }

  lemma AllLeave<K, V, O>(s: State<K, V, O>, t: nat, round: nat)
    requires Together(s) && t < |s.pcs| && s.pcs[t] == Enter(round) && s.count + 1 >= |s.pcs|
    ensures forall u: nat :: u < |s.pcs| ==> EnterBarrier(s, t, round).pcs[u] == Leaving(round)
  {
    OthersWait(s.pcs, t);
    hide Waiters;
    forall u: nat | u < |s.pcs| ensures EnterBarrier(s, t, round).pcs[u] == Leaving(round) {
      if u != t {
        assert Phase(s.pcs[u]) == Phase(s.pcs[0]) == Phase(s.pcs[t]);
      }
    }
  }

  // ------------------------------------------------------------------ the map stage

  /** No more inputs to claim for this thread. */
  predicate PastMap(pc: PC) {
    !pc.Start? && !pc.MapClaim? && !pc.Mapping?
  }

  predicate PastSort(pc: PC) {
    PastMap(pc) && pc != Sort
  }

  /** The pairs a thread has yet to emit for the input it is mapping. */
  ghost function ToEmit<I, K, V, O>(c: Client<I, K, V, O>, inputs: seq<I>, pc: PC): multiset<Pair<K, V>> {
    if pc.Mapping? && pc.input < |inputs| && pc.emitted <= |c.mapper(inputs[pc.input])|
    then multiset(c.mapper(inputs[pc.input])[pc.emitted..]) else multiset{}
  }

  ghost function Total<T>(ms: seq<multiset<T>>): multiset<T> {
    if ms == [] then multiset{} else ms[0] + Total(ms[1..])
  }

  ghost function AllToEmit<I, K, V, O>(c: Client<I, K, V, O>, inputs: seq<I>, pcs: seq<PC>): multiset<Pair<K, V>> {
    Total(OwedPairs(c, inputs, pcs))
  }

  ghost function OwedPairs<I, K, V, O>(c: Client<I, K, V, O>, inputs: seq<I>, pcs: seq<PC>): (owed: seq<multiset<Pair<K, V>>>)
    ensures |owed| == |pcs| && forall i :: 0 <= i < |pcs| ==> owed[i] == ToEmit(c, inputs, pcs[i])
  {
    seq(|pcs|, i requires 0 <= i < |pcs| => ToEmit(c, inputs, pcs[i]))
  }

  /** The pairs of the first `n` inputs, mapped one after the other. */
  ghost function Mapped<I, K, V, O>(c: Client<I, K, V, O>, inputs: seq<I>, n: nat): seq<Pair<K, V>>
    requires n <= |inputs|
  {
    if n == 0 then [] else Mapped(c, inputs, n - 1) + c.mapper(inputs[n - 1])
  }

  function Min(a: nat, b: nat): nat {
    if a < b then a else b
  }

  ghost predicate MapperOk<I, K, V, O>(c: Client<I, K, V, O>, inputs: seq<I>, s: State<K, V, O>, t: nat)
    requires t < |s.pcs| == |s.vecs|
  {
    && (s.pcs[t].Mapping? ==> && s.pcs[t].input < |inputs| && s.pcs[t].input < s.mapCounter
                              && s.pcs[t].emitted <= |c.mapper(inputs[s.pcs[t].input])|)
    && (PastMap(s.pcs[t]) ==> s.mapCounter >= |inputs|)
    && (PastSort(s.pcs[t]) ==> Sorted(c.less, s.vecs[t]))
  }

  /** No two threads work on the same input. */
  ghost predicate ClaimsApart(pcs: seq<PC>) {
    forall t: nat, u: nat :: t < u < |pcs| && pcs[t].Mapping? && pcs[u].Mapping? ==> pcs[t].input != pcs[u].input
  }

  ghost predicate Mappers<I, K, V, O>(c: Client<I, K, V, O>, inputs: seq<I>, s: State<K, V, O>) {
    && |s.pcs| == |s.vecs| && ClaimsApart(s.pcs)
    && forall t: nat :: t < |s.pcs| ==> MapperOk(c, inputs, s, t)
  }

  /** No pair is lost or made up: what was emitted and what is still to be
      emitted are the pairs of exactly the inputs claimed so far. */
  ghost predicate PairsConserved<I, K, V, O>(c: Client<I, K, V, O>, inputs: seq<I>, s: State<K, V, O>) {
    Union(s.vecs) + AllToEmit(c, inputs, s.pcs) == multiset(Mapped(c, inputs, Min(s.mapCounter, |inputs|)))
  }

  ghost predicate MapsOnce<I, K, V, O>(c: Client<I, K, V, O>, inputs: seq<I>, s: State<K, V, O>) {
    Mappers(c, inputs, s) && PairsConserved(c, inputs, s)
  }

  lemma SameBesides<T>(h: multiset<T>, a: multiset<T>, x: multiset<T>, b: multiset<T>, y: multiset<T>)
    requires a + x == b + y
    ensures (h + a) + x == (h + b) + y
  {
    assert (h + a) + x == h + (a + x);
    assert (h + b) + y == h + (b + y);
  }

  /** Two sums change by known amounts; so does their total. */
  lemma Balance<T>(u: multiset<T>, e: multiset<T>, m: multiset<T>, u': multiset<T>, e': multiset<T>, m': multiset<T>,
                   u0: multiset<T>, u1: multiset<T>, e0: multiset<T>, e1: multiset<T>)
    requires u + e == m && u' + u0 == u + u1 && e' + e0 == e + e1
    requires m + (u1 + e1) == m' + (u0 + e0)
    ensures u' + e' == m'
  {
    forall o ensures (u' + e')[o] == m'[o] {
      assert (u + e)[o] == m[o];
      assert (u' + u0)[o] == (u + u1)[o];
      assert (e' + e0)[o] == (e + e1)[o];
      assert (m + (u1 + e1))[o] == (m' + (u0 + e0))[o];
    }
  }

  lemma {:induction false} UnionUpdate<T>(ls: seq<seq<T>>, t: nat, l: seq<T>)
    requires t < |ls|
    ensures Union(ls[t := l]) + multiset(ls[t]) == Union(ls) + multiset(l)
  {
    var ls' := ls[t := l];
    if t == 0 {
      assert ls'[1..] == ls[1..];
    } else {
      UnionUpdate(ls[1..], t - 1, l);
      assert ls'[1..] == ls[1..][t - 1 := l] && ls'[0] == ls[0] && ls[1..][t - 1] == ls[t];
      SameBesides(multiset(ls[0]), Union(ls'[1..]), multiset(ls[t]), Union(ls[1..]), multiset(l));
    }
  }

  lemma {:induction false} TotalUpdate<T>(ms: seq<multiset<T>>, t: nat, m: multiset<T>)
    requires t < |ms|
    ensures Total(ms[t := m]) + ms[t] == Total(ms) + m
  {
    var ms' := ms[t := m];
    if t == 0 {
      assert ms'[1..] == ms[1..];
    } else {
      TotalUpdate(ms[1..], t - 1, m);
      assert ms'[1..] == ms[1..][t - 1 := m] && ms'[0] == ms[0] && ms[1..][t - 1] == ms[t];
      SameBesides(ms[0], Total(ms'[1..]), ms[t], Total(ms[1..]), m);
    }
  }

  lemma ToEmitUpdate<I, K, V, O>(c: Client<I, K, V, O>, inputs: seq<I>, pcs: seq<PC>, t: nat, pc: PC)
    requires t < |pcs|
    ensures AllToEmit(c, inputs, pcs[t := pc]) + ToEmit(c, inputs, pcs[t]) == AllToEmit(c, inputs, pcs) + ToEmit(c, inputs, pc)
  {
    var owed := OwedPairs(c, inputs, pcs);
    assert OwedPairs(c, inputs, pcs[t := pc]) == owed[t := ToEmit(c, inputs, pc)];
    TotalUpdate(owed, t, ToEmit(c, inputs, pc));
  }

  lemma ToEmitBroadcast<I, K, V, O>(c: Client<I, K, V, O>, inputs: seq<I>, pcs: seq<PC>)
    ensures AllToEmit(c, inputs, Broadcast(pcs)) == AllToEmit(c, inputs, pcs)
  {
    assert OwedPairs(c, inputs, Broadcast(pcs)) == OwedPairs(c, inputs, pcs);
  }

  /** Every step keeps what each mapping thread is doing in order. */
  lemma MappersStep<I, K, V, O>(c: Client<I, K, V, O>, inputs: seq<I>, s: State<K, V, O>, t: nat, s': State<K, V, O>)
    requires Mappers(c, inputs, s) && Step(c, inputs, s, t, s')
    ensures Mappers(c, inputs, s')
  {
    hide Groups, Sorted, EnterBarrier;
    assert MapperOk(c, inputs, s, t);
    forall u: nat | u < |s.pcs| && s.pcs[u].Mapping? ensures s.pcs[u].input < s.mapCounter {
      assert MapperOk(c, inputs, s, u);
    }
    if s.pcs[t].Enter? {
      MappersEnter(c, inputs, s, t, s.pcs[t].round);
    } else {
      assert s'.pcs == s.pcs[t := s'.pcs[t]];
      forall u: nat | u < |s'.pcs| ensures MapperOk(c, inputs, s', u) {
        assert MapperOk(c, inputs, s, u);
      }
      ApartStep(s.pcs, s'.pcs, t, s.mapCounter);
    }
  }

  lemma MappersEnter<I, K, V, O>(c: Client<I, K, V, O>, inputs: seq<I>, s: State<K, V, O>, t: nat, round: nat)
    requires Mappers(c, inputs, s) && t < |s.pcs| && s.pcs[t] == Enter(round)
    ensures Mappers(c, inputs, EnterBarrier(s, t, round))
  {
    var s' := EnterBarrier(s, t, round);
    forall u: nat | u < |s'.pcs| ensures MapperOk(c, inputs, s', u) {
      assert MapperOk(c, inputs, s, u);
    }
  }

  lemma ApartStep(pcs: seq<PC>, pcs': seq<PC>, t: nat, counter: nat)
    requires ClaimsApart(pcs) && |pcs'| == |pcs| && t < |pcs|
    requires forall u: nat :: u < |pcs| && u != t ==>
               (pcs'[u].Mapping? ==> pcs[u].Mapping? && pcs'[u].input == pcs[u].input)
    requires pcs'[t].Mapping? ==> (pcs[t].Mapping? && pcs'[t].input == pcs[t].input) || pcs'[t].input == counter
    requires forall u: nat :: u < |pcs| && pcs[u].Mapping? ==> pcs[u].input < counter
    ensures ClaimsApart(pcs')
  {
  }

  /** The conservation law, carried over a step in which thread `t`'s vector
      and place change and `claimed` pairs become due. */
  lemma Carry<I, K, V, O>(c: Client<I, K, V, O>, inputs: seq<I>, s: State<K, V, O>, t: nat, s': State<K, V, O>,
                          claimed: multiset<Pair<K, V>>)
    requires PairsConserved(c, inputs, s) && t < |s.pcs| == |s.vecs| == |s'.pcs| == |s'.vecs|
    requires s'.pcs == s.pcs[t := s'.pcs[t]] && s'.vecs == s.vecs[t := s'.vecs[t]]
    requires multiset(s'.vecs[t]) + ToEmit(c, inputs, s'.pcs[t])
          == (multiset(s.vecs[t]) + ToEmit(c, inputs, s.pcs[t])) + claimed
    requires multiset(Mapped(c, inputs, Min(s'.mapCounter, |inputs|)))
          == multiset(Mapped(c, inputs, Min(s.mapCounter, |inputs|))) + claimed
    ensures PairsConserved(c, inputs, s')
  {
    var m, m' := multiset(Mapped(c, inputs, Min(s.mapCounter, |inputs|))), multiset(Mapped(c, inputs, Min(s'.mapCounter, |inputs|)));
    var u0, u1 := multiset(s.vecs[t]), multiset(s'.vecs[t]);
    var e0, e1 := ToEmit(c, inputs, s.pcs[t]), ToEmit(c, inputs, s'.pcs[t]);
    hide *;
    ConservedIs(c, inputs, s);
    ConservedIs(c, inputs, s');
    UnionUpdate(s.vecs, t, s'.vecs[t]);
    ToEmitUpdate(c, inputs, s.pcs, t, s'.pcs[t]);
    assert m + (u1 + e1) == m' + (u0 + e0);
    Balance(Union(s.vecs), AllToEmit(c, inputs, s.pcs), m, Union(s'.vecs), AllToEmit(c, inputs, s'.pcs), m', u0, u1, e0, e1);
  }

  lemma ConservedIs<I, K, V, O>(c: Client<I, K, V, O>, inputs: seq<I>, s: State<K, V, O>)
    ensures PairsConserved(c, inputs, s) <==>
      Union(s.vecs) + AllToEmit(c, inputs, s.pcs) == multiset(Mapped(c, inputs, Min(s.mapCounter, |inputs|)))
  {
  }

  lemma ClaimPairs<I, K, V, O>(c: Client<I, K, V, O>, inputs: seq<I>, s: State<K, V, O>, t: nat, s': State<K, V, O>)
    requires PairsConserved(c, inputs, s) && Step(c, inputs, s, t, s') && s.pcs[t].MapClaim?
    ensures PairsConserved(c, inputs, s')
  {
    hide PairsConserved, AllToEmit, Union;
    var i := s.mapCounter;
    if i < |inputs| {
      assert c.mapper(inputs[i])[0..] == c.mapper(inputs[i]);
      Carry(c, inputs, s, t, s', multiset(c.mapper(inputs[i])));
    } else {
      Carry(c, inputs, s, t, s', multiset{});
    }
  }

  lemma EmitPairs<I, K, V, O>(c: Client<I, K, V, O>, inputs: seq<I>, s: State<K, V, O>, t: nat, s': State<K, V, O>)
    requires PairsConserved(c, inputs, s) && Step(c, inputs, s, t, s') && s.pcs[t].Mapping? && MapperOk(c, inputs, s, t)
    ensures PairsConserved(c, inputs, s')
  {
    hide PairsConserved, AllToEmit, Union;
    var k, pairs := s.pcs[t].emitted, c.mapper(inputs[s.pcs[t].input]);
    if k < |pairs| {
      assert pairs[k..] == [pairs[k]] + pairs[k + 1..];
    } else {
      assert pairs[k..] == [];
    }
    Carry(c, inputs, s, t, s', multiset{});
  }

  lemma EnterPairs<I, K, V, O>(c: Client<I, K, V, O>, inputs: seq<I>, s: State<K, V, O>, t: nat, s': State<K, V, O>)
    requires PairsConserved(c, inputs, s) && Step(c, inputs, s, t, s') && s.pcs[t].Enter?
    ensures PairsConserved(c, inputs, s')
  {
    if s.count + 1 < |s.pcs| {
      Carry(c, inputs, s, t, s', multiset{});
    } else {
      ToEmitBroadcast(c, inputs, s.pcs);
      Carry(c, inputs, s.(pcs := Broadcast(s.pcs)), t, s', multiset{});
    }
  }

  /** Every step conserves the pairs: each claimed input is mapped exactly once. */
  lemma PairsStep<I, K, V, O>(c: Client<I, K, V, O>, inputs: seq<I>, s: State<K, V, O>, t: nat, s': State<K, V, O>)
    requires MapsOnce(c, inputs, s) && Step(c, inputs, s, t, s')
    ensures PairsConserved(c, inputs, s')
  {
    hide PairsConserved, ClaimsApart, AllToEmit, Union;
    assert MapperOk(c, inputs, s, t);
    match s.pcs[t]
    case MapClaim => ClaimPairs(c, inputs, s, t, s');
    case Mapping(_, _) => EmitPairs(c, inputs, s, t, s');
    case Enter(_) => EnterPairs(c, inputs, s, t, s');
    case _ => Carry(c, inputs, s, t, s', multiset{});
  }

  // ------------------------------------------------------- phases and the stage field

  predicate Shuffled(pc: PC) {
    pc == Enter(2) || pc == Waiting(2) || Phase(pc) == 2
  }

  function StageRank(stage: Stage): nat {
    match stage
    case UNDEFINED_STAGE => 0
    case MAP_STAGE => 1
    case SHUFFLE_STAGE => 2
    case REDUCE_STAGE => 3
  }

  predicate Reduces(pc: PC) {
    pc.ReduceClaim? || pc.Reducing? || pc.Done?
  }

  /** Only thread 0 shuffles, and only between the barriers; the groups exist
      exactly from the end of its shuffle on; nothing is reduced before the
      second barrier. */
  ghost predicate InStage<I, K, V, O>(c: Client<I, K, V, O>, s: State<K, V, O>)
    requires s.pcs != [] && s.vecs != []
  {
    && (Shuffled(s.pcs[0]) ==> s.shuffled == Groups(c, s))
    && (!Shuffled(s.pcs[0]) ==> s.shuffled == [])
    && (Phase(s.pcs[0]) < 2 ==> s.output == [] && s.reduceCounter == 0)
    && (Phase(s.pcs[0]) == 0 ==> StageRank(s.stage) <= 1)
    && (s.pcs[0] == Leaving(1) || s.pcs[0] == SetShuffle ==> s.stage == MAP_STAGE)
    && (s.pcs[0] == Shuffle || s.pcs[0] == Enter(2) || s.pcs[0] == Waiting(2) ==> s.stage == SHUFFLE_STAGE)
    && (Phase(s.pcs[0]) == 2 ==> StageRank(s.stage) >= 2)
    && (forall t: nat :: t < |s.pcs| && !s.pcs[t].Start? ==> s.stage != UNDEFINED_STAGE)
    && (forall t: nat :: t < |s.pcs| && Reduces(s.pcs[t]) ==> s.stage == REDUCE_STAGE)
  }

  lemma StageEnter<I, K, V, O>(c: Client<I, K, V, O>, s: State<K, V, O>, t: nat, round: nat)
    requires Together(s) && InStage(c, s) && t < |s.pcs| && s.pcs[t] == Enter(round)
    ensures InStage(c, EnterBarrier(s, t, round))
  {
    var s' := EnterBarrier(s, t, round);
    EnterTogether(s, t, round);
    assert Phase(s.pcs[0]) == Phase(s.pcs[t]) && RoundOk(s.pcs[t]);
    SameVecsSameGroups(c, s, s');
    hide Groups, Waiters;
    if s.count + 1 >= |s.pcs| && t != 0 {
      OthersWait(s.pcs, t);
    }
  }

  lemma SameVecsSameGroups<I, K, V, O>(c: Client<I, K, V, O>, s: State<K, V, O>, s': State<K, V, O>)
    requires s.vecs != [] && s'.vecs == s.vecs
    ensures Groups(c, s') == Groups(c, s)
  {
  }

  lemma StageMove<I, K, V, O>(c: Client<I, K, V, O>, inputs: seq<I>, s: State<K, V, O>, t: nat, s': State<K, V, O>)
    requires Together(s) && InStage(c, s) && Step(c, inputs, s, t, s') && !s.pcs[t].Enter?
    ensures s'.vecs != [] && s'.pcs != [] && InStage(c, s')
  {
    hide Groups, Waiters, SortsTo;
    assert Phase(s.pcs[0]) == Phase(s.pcs[t]) && RoundOk(s.pcs[t]);
    assert s'.pcs == s.pcs[t := s'.pcs[t]];
    if Phase(s.pcs[t]) != 0 {
      SameVecsSameGroups(c, s, s');
    }
  }

  /** Every step keeps the phases apart, and never takes the stage back. */
  lemma StageStep<I, K, V, O>(c: Client<I, K, V, O>, inputs: seq<I>, s: State<K, V, O>, t: nat, s': State<K, V, O>)
    requires Together(s) && InStage(c, s) && Step(c, inputs, s, t, s')
    ensures s'.vecs != [] && s'.pcs != [] && InStage(c, s')
    ensures StageRank(s'.stage) >= StageRank(s.stage)
  {
    hide Groups, Waiters, SortsTo;
    assert Phase(s.pcs[0]) == Phase(s.pcs[t]) && RoundOk(s.pcs[t]);
    if s.pcs[t].Enter? {
      StageEnter(c, s, t, s.pcs[t].round);
    } else {
      StageMove(c, inputs, s, t, s');
    }
  }
}

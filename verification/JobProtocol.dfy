/** A running job: any number of threads that claim inputs, emit pairs, meet at
    a reusable barrier, and claim groups. One step of one thread is one atomic
    increment or one mutex-protected block. */
module JobProtocol {
  import opened PairVectors
  import opened Grouping

  /** The client's callbacks: the pairs `mapper` emits for an input, the outputs
      `reducer` emits for a group, and the order of intermediate keys. */
  datatype Client<!I, !K, !V, O> = Client(
    mapper: I -> seq<Pair<K, V>>, reducer: seq<Pair<K, V>> -> seq<O>, less: (K, K) -> bool)

  datatype Stage = UNDEFINED_STAGE | MAP_STAGE | SHUFFLE_STAGE | REDUCE_STAGE

  /** Where a thread stands. `Enter`, `Waiting` and `Leaving` are the barrier's
      first and second use; `emitted` counts the emits of one callback. */
  datatype PC =
    | Start
    | MapClaim
    | Mapping(input: nat, emitted: nat)
    | Sort
    | Enter(round: nat)
    | Waiting(round: nat)
    | Leaving(round: nat)
    | SetShuffle
    | Shuffle
    | CheckReduce
    | SetReduce
    | ReduceClaim
    | Reducing(group: nat, emitted: nat)
    | Done

  datatype State<K, V, O> = State(
    pcs: seq<PC>,
    mapCounter: nat,
    reduceCounter: nat,
    vecs: seq<seq<Pair<K, V>>>,
    count: nat,
    stage: Stage,
    shuffled: seq<seq<Pair<K, V>>>,
    output: seq<O>)
  {
    function Move(t: nat, pc: PC): State<K, V, O>
      requires t < |pcs|
    {
      this.(pcs := pcs[t := pc])
    }
  }

  /** `pthread_cond_broadcast`: everyone who waits may leave. */
  function Broadcast(pcs: seq<PC>): (r: seq<PC>)
    ensures |r| == |pcs|
    ensures forall i :: 0 <= i < |pcs| ==> r[i] == if pcs[i].Waiting? then Leaving(pcs[i].round) else pcs[i]
  {
    seq(|pcs|, i requires 0 <= i < |pcs| => if pcs[i].Waiting? then Leaving(pcs[i].round) else pcs[i])
  }

  /** `Barrier::barrier` up to the wait or the broadcast. */
  function EnterBarrier<K, V, O>(s: State<K, V, O>, t: nat, round: nat): State<K, V, O>
    requires t < |s.pcs|
  {
    if s.count + 1 < |s.pcs| then s.Move(t, Waiting(round)).(count := s.count + 1)
    else s.(pcs := Broadcast(s.pcs)[t := Leaving(round)], count := 0)
  }

  /** The groups made of the threads' vectors. */
  ghost function Groups<I, K, V, O>(c: Client<I, K, V, O>, s: State<K, V, O>): seq<seq<Pair<K, V>>>
    requires s.vecs != []
  {
    Group(c.less, MergeAll(c.less, s.vecs))
  }

  ghost predicate SortsTo<K, V>(less: (K, K) -> bool, v: seq<Pair<K, V>>, v': seq<Pair<K, V>>) {
    Sorted(less, v') && multiset(v') == multiset(v)
  }

  /** What thread `t` does next; when it sorts, `sorted` is its vector sorted. */
  ghost function After<I, K, V, O>(c: Client<I, K, V, O>, inputs: seq<I>, s: State<K, V, O>, t: nat,
                                     sorted: seq<Pair<K, V>>): State<K, V, O>
    requires t < |s.pcs| == |s.vecs|
    requires s.pcs[t].Mapping? ==> s.pcs[t].input < |inputs|
    requires s.pcs[t].Reducing? ==> s.pcs[t].group < |s.shuffled|
  {
    match s.pcs[t]
    case Start => s.Move(t, MapClaim).(stage := MAP_STAGE)
    case MapClaim => s.Move(t, if s.mapCounter < |inputs| then Mapping(s.mapCounter, 0) else Sort)
                      .(mapCounter := s.mapCounter + 1)
    case Mapping(i, k) =>
      if k < |c.mapper(inputs[i])|
      then s.Move(t, Mapping(i, k + 1)).(vecs := s.vecs[t := s.vecs[t] + [c.mapper(inputs[i])[k]]])
      else s.Move(t, MapClaim)
    case Sort => s.Move(t, Enter(1)).(vecs := s.vecs[t := sorted])
    case Enter(round) => EnterBarrier(s, t, round)
    case Leaving(round) => s.Move(t, if round == 2 then CheckReduce else if t == 0 then SetShuffle else Enter(2))
    case SetShuffle => s.Move(t, Shuffle).(stage := SHUFFLE_STAGE)
    case Shuffle => s.Move(t, Enter(2)).(shuffled := Groups(c, s))
    case CheckReduce => s.Move(t, if s.stage != REDUCE_STAGE then SetReduce else ReduceClaim)
    case SetReduce => s.Move(t, ReduceClaim).(stage := REDUCE_STAGE)
    case ReduceClaim => s.Move(t, if s.reduceCounter < |s.shuffled| then Reducing(s.reduceCounter, 0) else Done)
                         .(reduceCounter := s.reduceCounter + 1)
    case Reducing(g, k) =>
      if k < |c.reducer(s.shuffled[g])|
      then s.Move(t, Reducing(g, k + 1)).(output := s.output + [c.reducer(s.shuffled[g])[k]])
      else s.Move(t, ReduceClaim)
    case _ => s
  }

  /** One step of thread `t`. A waiting thread and a finished one have none. */
  ghost predicate Step<I, K, V, O>(c: Client<I, K, V, O>, inputs: seq<I>, s: State<K, V, O>, t: nat, s': State<K, V, O>) {
    && t < |s.pcs| == |s.vecs| == |s'.vecs| && !s.pcs[t].Waiting? && !s.pcs[t].Done?
    && (s.pcs[t].Mapping? ==> s.pcs[t].input < |inputs|)
    && (s.pcs[t].Reducing? ==> s.pcs[t].group < |s.shuffled|)
    && (s.pcs[t].Sort? ==> SortsTo(c.less, s.vecs[t], s'.vecs[t]))
    && s' == After(c, inputs, s, t, s'.vecs[t])
  }

  ghost predicate Next<I, K, V, O>(c: Client<I, K, V, O>, inputs: seq<I>, s: State<K, V, O>, s': State<K, V, O>) {
    exists t: nat :: Step(c, inputs, s, t, s')
  }

  /** A job just started with `n` threads. */
  function Started<K, V, O>(n: nat): State<K, V, O> {
    State(seq(n, _ => Start), 0, 0, seq(n, _ => []), 0, UNDEFINED_STAGE, [], [])
  }

  ghost predicate Finished<K, V, O>(s: State<K, V, O>) {
    forall t :: 0 <= t < |s.pcs| ==> s.pcs[t] == Done
  }
}

/** Every schedule of a job ends. */
module JobEnds {
  import opened PairVectors
  import opened Grouping
  import opened JobProtocol
  import opened JobInvariant
  import opened JobOrder
  import opened JobReduce
  import opened JobRuns

  /** How many stations a thread still has before it. */
  function Rank(pc: PC): nat {
    match pc
    case Start => 14
    case MapClaim | Mapping(_, _) => 13
    case Sort => 12
    case Enter(round) => if round == 1 then 11 else 6
    case Waiting(round) => if round == 1 then 10 else 5
    case Leaving(round) => if round == 1 then 9 else 4
    case SetShuffle => 8
    case Shuffle => 7
    case CheckReduce => 3
    case SetReduce => 2
    case ReduceClaim | Reducing(_, _) => 1
    case Done => 0
  }

  ghost function Sum(ws: seq<nat>): nat {
    if ws == [] then 0 else ws[0] + Sum(ws[1..])
  }

  ghost function Ranks(pcs: seq<PC>): (ws: seq<nat>)
    ensures |ws| == |pcs| && forall i :: 0 <= i < |pcs| ==> ws[i] == Rank(pcs[i])
  {
    seq(|pcs|, i requires 0 <= i < |pcs| => Rank(pcs[i]))
  }

  /** Emits a thread still has to make in its current callback, plus one. */
  ghost function Left<I, K, V, O>(c: Client<I, K, V, O>, inputs: seq<I>, groups: seq<seq<Pair<K, V>>>, pc: PC): nat {
    match pc
    case Mapping(i, k) => if i < |inputs| && k <= |c.mapper(inputs[i])| then |c.mapper(inputs[i])| - k + 1 else 0
    case Reducing(g, k) => if g < |groups| && k <= |c.reducer(groups[g])| then |c.reducer(groups[g])| - k + 1 else 0
    case _ => 0
  }

  ghost function Lefts<I, K, V, O>(c: Client<I, K, V, O>, inputs: seq<I>, groups: seq<seq<Pair<K, V>>>, pcs: seq<PC>): (ws: seq<nat>)
    ensures |ws| == |pcs| && forall i :: 0 <= i < |pcs| ==> ws[i] == Left(c, inputs, groups, pcs[i])
  {
    seq(|pcs|, i requires 0 <= i < |pcs| => Left(c, inputs, groups, pcs[i]))
  }

  /** Work in the inputs nobody has claimed yet. */
  ghost function MapWork<I, K, V, O>(c: Client<I, K, V, O>, inputs: seq<I>, from: nat): nat
    decreases |inputs| - from
  {
    if from >= |inputs| then 0 else |c.mapper(inputs[from])| + 2 + MapWork(c, inputs, from + 1)
  }

  ghost function ReduceWork<I, K, V, O>(c: Client<I, K, V, O>, groups: seq<seq<Pair<K, V>>>, from: nat): nat
    decreases |groups| - from
  {
    if from >= |groups| then 0 else |c.reducer(groups[from])| + 2 + ReduceWork(c, groups, from + 1)
  }

  ghost function Stations<K, V, O>(s: State<K, V, O>): nat {
    Sum(Ranks(s.pcs))
  }

  ghost function Work<I, K, V, O>(c: Client<I, K, V, O>, inputs: seq<I>, s: State<K, V, O>): nat {
    MapWork(c, inputs, s.mapCounter) + ReduceWork(c, s.shuffled, s.reduceCounter) + Sum(Lefts(c, inputs, s.shuffled, s.pcs))
  }

  lemma {:induction false} SumUpdate(ws: seq<nat>, t: nat, w: nat)
    requires t < |ws|
    ensures Sum(ws[t := w]) + ws[t] == Sum(ws) + w
  {
    var ws' := ws[t := w];
    if t == 0 {
      assert ws'[1..] == ws[1..];
    } else {
      SumUpdate(ws[1..], t - 1, w);
      assert ws'[1..] == ws[1..][t - 1 := w];
    }
  }

  lemma {:induction false} SumLess(a: seq<nat>, b: seq<nat>)
    requires |a| == |b| && forall i :: 0 <= i < |a| ==> a[i] <= b[i]
    ensures Sum(a) <= Sum(b)
  {
    if a != [] {
      SumLess(a[1..], b[1..]);
    }
  }

  lemma MoveStations<K, V, O>(s: State<K, V, O>, t: nat, s': State<K, V, O>)
    requires t < |s.pcs| == |s'.pcs| && s'.pcs == s.pcs[t := s'.pcs[t]]
    ensures Stations(s') + Rank(s.pcs[t]) == Stations(s) + Rank(s'.pcs[t])
  {
    assert Ranks(s'.pcs) == Ranks(s.pcs)[t := Rank(s'.pcs[t])];
    SumUpdate(Ranks(s.pcs), t, Rank(s'.pcs[t]));
  }

  lemma EnterStations<K, V, O>(s: State<K, V, O>, t: nat, round: nat)
    requires t < |s.pcs| && s.pcs[t] == Enter(round)
    ensures Stations(EnterBarrier(s, t, round)) < Stations(s)
  {
    var s' := EnterBarrier(s, t, round);
    if s.count + 1 < |s.pcs| {
      MoveStations(s, t, s');
    } else {
      var mid := s.(pcs := Broadcast(s.pcs));
      SumLess(Ranks(mid.pcs), Ranks(s.pcs));
      MoveStations(mid, t, s');
    }
  }

  /** A step in which only thread `t` moves, by how much its work changes. */
  lemma MoveLefts<I, K, V, O>(c: Client<I, K, V, O>, inputs: seq<I>, groups: seq<seq<Pair<K, V>>>, pcs: seq<PC>, t: nat, pc: PC)
    requires t < |pcs|
    ensures Sum(Lefts(c, inputs, groups, pcs[t := pc])) + Left(c, inputs, groups, pcs[t])
         == Sum(Lefts(c, inputs, groups, pcs)) + Left(c, inputs, groups, pc)
  {
    hide Left, Sum;
    assert Lefts(c, inputs, groups, pcs[t := pc]) == Lefts(c, inputs, groups, pcs)[t := Left(c, inputs, groups, pc)];
    SumUpdate(Lefts(c, inputs, groups, pcs), t, Left(c, inputs, groups, pc));
  }

  /** Claiming an input turns unclaimed work into work of the thread, less one. */
  lemma ClaimShrinks<I, K, V, O>(c: Client<I, K, V, O>, inputs: seq<I>, groups: seq<seq<Pair<K, V>>>, m: nat, r: nat)
    ensures m < |inputs| ==> MapWork(c, inputs, m) == MapWork(c, inputs, m + 1) + Left(c, inputs, groups, Mapping(m, 0)) + 1
    ensures r < |groups| ==> ReduceWork(c, groups, r) == ReduceWork(c, groups, r + 1) + Left(c, inputs, groups, Reducing(r, 0)) + 1
  {
  }

  /** Within a station, the unclaimed and unfinished work shrinks. */
  lemma WorkShrinks<I, K, V, O>(c: Client<I, K, V, O>, inputs: seq<I>, s: State<K, V, O>, t: nat, s': State<K, V, O>)
    requires Step(c, inputs, s, t, s') && MapperOk(c, inputs, s, t) && ReducerOk(c, s, t) && RoundOk(s.pcs[t])
    requires Rank(s'.pcs[t]) >= Rank(s.pcs[t]) && !s.pcs[t].Enter?
    ensures Rank(s'.pcs[t]) == Rank(s.pcs[t]) && Work(c, inputs, s') < Work(c, inputs, s)
  {
    hide Groups, EnterBarrier, SortsTo, MapWork, ReduceWork, Sum, Sorted;
    assert s'.pcs == s.pcs[t := s'.pcs[t]] && s'.shuffled == s.shuffled;
    MoveLefts(c, inputs, s.shuffled, s.pcs, t, s'.pcs[t]);
    ClaimShrinks(c, inputs, s.shuffled, s.mapCounter, s.reduceCounter);
  }

  lemma InvAt<I, K, V, O>(c: Client<I, K, V, O>, inputs: seq<I>, s: State<K, V, O>, t: nat)
    requires Inv(c, inputs, s) && t < |s.pcs|
    ensures |s.pcs| == |s.vecs| && MapperOk(c, inputs, s, t) && ReducerOk(c, s, t) && RoundOk(s.pcs[t])
  {
    hide InStage, PairsConserved, OutputConserved, InOrder;
  }

  /** Every step leaves fewer stations, or as many and less work. */
  lemma StepDecreases<I, K, V, O>(c: Client<I, K, V, O>, inputs: seq<I>, s: State<K, V, O>, t: nat, s': State<K, V, O>)
    requires Inv(c, inputs, s) && Step(c, inputs, s, t, s')
    ensures Stations(s') < Stations(s) || (Stations(s') == Stations(s) && Work(c, inputs, s') < Work(c, inputs, s))
  {
    hide Inv, MapperOk, ReducerOk, Groups, Sum, Stations, Work, SortsTo;
    InvAt(c, inputs, s, t);
    if s.pcs[t].Enter? {
      EnterStations(s, t, s.pcs[t].round);
    } else {
      MoveStations(s, t, s');
      if Rank(s'.pcs[t]) >= Rank(s.pcs[t]) {
        WorkShrinks(c, inputs, s, t, s');
      }
    }
  }

  /** No thread can take a step. */
  ghost predicate Stuck<I(!new), K(!new), V(!new), O(!new)>(c: Client<I, K, V, O>, inputs: seq<I>, s: State<K, V, O>) {
    forall s' :: !Next(c, inputs, s, s')
  }

  /** An infinite record of a job that goes on for as long as any thread can move. */
  ghost predicate Schedule<I(!new), K(!new), V(!new), O(!new)>(c: Client<I, K, V, O>, inputs: seq<I>, run: nat -> State<K, V, O>) {
    forall k: nat :: Next(c, inputs, run(k), run(k + 1)) || (Stuck(c, inputs, run(k)) && run(k + 1) == run(k))
  }

  lemma NextDecreases<I, K, V, O>(c: Client<I, K, V, O>, inputs: seq<I>, s: State<K, V, O>, s': State<K, V, O>)
    requires Inv(c, inputs, s) && Next(c, inputs, s, s')
    ensures Inv(c, inputs, s') && |s'.pcs| == |s.pcs|
    ensures Stations(s') < Stations(s) || (Stations(s') == Stations(s) && Work(c, inputs, s') < Work(c, inputs, s))
  {
    hide Inv, Step, Stations, Work;
    var t: nat :| Step(c, inputs, s, t, s');
    StepInv(c, inputs, s, t, s');
    StepDecreases(c, inputs, s, t, s');
    SameThreads(c, inputs, s, t, s');
  }

  lemma SameThreads<I, K, V, O>(c: Client<I, K, V, O>, inputs: seq<I>, s: State<K, V, O>, t: nat, s': State<K, V, O>)
    requires Step(c, inputs, s, t, s')
    ensures |s'.pcs| == |s.pcs|
  {
    hide Groups, SortsTo;
  }

  lemma NotStuck<I(!new), K(!new), V(!new), O(!new)>(c: Client<I, K, V, O>, inputs: seq<I>, s: State<K, V, O>)
    requires StrictWeakOrder(c.less) && Inv(c, inputs, s) && !Finished(s)
    ensures !Stuck(c, inputs, s)
  {
    hide Inv, Step;
    var t, s' := Progress(c, inputs, s);
    assert Next(c, inputs, s, s');
  }

  /** Every schedule ends, and it ends with every thread done: neither a
      deadlock nor an endless run. */
  lemma {:induction false} ScheduleEnds<I(!new), K(!new), V(!new), O(!new)>(
    c: Client<I, K, V, O>, inputs: seq<I>, run: nat -> State<K, V, O>, i: nat) returns (end: nat)
    requires StrictWeakOrder(c.less) && Schedule(c, inputs, run) && Inv(c, inputs, run(i))
    ensures end >= i && Finished(run(end)) && Inv(c, inputs, run(end)) && |run(end).pcs| == |run(i).pcs|
    decreases Stations(run(i)), Work(c, inputs, run(i))
  {
    hide Inv, Next, Stations, Work, Stuck, Finished;
    if Finished(run(i)) {
      end := i;
    } else {
      NotStuck(c, inputs, run(i));
      NextDecreases(c, inputs, run(i), run(i + 1));
      end := ScheduleEnds(c, inputs, run, i + 1);
    }
  }
}

/** The ready queue is a queue: the order in which threads wait and run. */
module SchedulerQueue {
  import opened SchedulerSpec
  import opened SchedulerInvariant
  import opened SchedulerRuns
  import opened SchedulerBlocking

  /** `t` stands before `u` in `q`. */
  ghost predicate Ahead<T>(q: seq<T>, t: T, u: T) {
    exists i: nat, j: nat :: i < j < |q| && q[i] == t && q[j] == u
  }

  lemma AheadIn<T>(q: seq<T>, t: T, u: T)
    requires Ahead(q, t, u)
    ensures t in q && u in q
  {
  }

  lemma AheadAt<T>(q: seq<T>, i: nat, j: nat)
    requires i < j < |q|
    ensures Ahead(q, q[i], q[j])
  {
  }

  lemma AheadGrows<T>(q: seq<T>, more: seq<T>, t: T, u: T)
    requires Ahead(q, t, u)
    ensures Ahead(q + more, t, u)
  {
    var i: nat, j: nat :| i < j < |q| && q[i] == t && q[j] == u;
    assert (q + more)[i] == t && (q + more)[j] == u;
  }

  /** Everyone in the first part stands before everyone in the second. */
  lemma AheadJoins<T>(q: seq<T>, more: seq<T>, t: T, u: T)
    requires t in q && u in more
    ensures Ahead(q + more, t, u)
  {
    var i: nat :| i < |q| && q[i] == t;
    var j: nat :| j < |more| && more[j] == u;
    assert (q + more)[i] == t && (q + more)[|q| + j] == u;
  }

  lemma AheadCons<T>(x: T, q: seq<T>, t: T, u: T)
    requires Ahead(q, t, u)
    ensures Ahead([x] + q, t, u)
  {
    var i: nat, j: nat :| i < j < |q| && q[i] == t && q[j] == u;
    assert ([x] + q)[i + 1] == t && ([x] + q)[j + 1] == u;
  }

  /** Without its first thread the rest of the queue stands as it did. */
  lemma AheadTail<T>(q: seq<T>, t: T, u: T)
    requires Ahead(q, t, u) && t != q[0]
    ensures Ahead(q[1..], t, u)
  {
    var i: nat, j: nat :| i < j < |q| && q[i] == t && q[j] == u;
    assert q[1..][i - 1] == t && q[1..][j - 1] == u;
  }

  /** Draining and refilling keeps the order of those who stay. */
  lemma {:induction false} WithoutKeepsOrder<T>(heap: map<T, Rec>, q: seq<T>, tid: int, t: T, u: T)
    requires NoDup(q) && Ahead(q, t, u) && t in Without(heap, q, tid) && u in Without(heap, q, tid)
    ensures Ahead(Without(heap, q, tid), t, u)
  {
    Dropped(heap, q, tid);
    var rest := Without(heap, q[1..], tid);
    TailNoDup(q);
    if t != q[0] {
      AheadTail(q, t, u);
      Dropped(heap, q[1..], tid);
      if !(q[0] in heap && heap[q[0]].id == tid) {
        AheadIn(q[1..], t, u);
        WithoutKeepsOrder(heap, q[1..], tid, t, u);
        AheadCons(q[0], rest, t, u);
      } else {
        WithoutKeepsOrder(heap, q[1..], tid, t, u);
      }
    } else {
      assert u != t;
      assert u in rest;
      AheadJoins([t], rest, t, u);
    }
  }

  lemma TailNoDup<T>(q: seq<T>)
    requires NoDup(q) && q != []
    ensures NoDup(q[1..]) && q[0] !in q[1..]
  {
  }

  /** Erasing one entry keeps the order of the others. */
  lemma EraseKeepsOrder<T>(heap: map<T, Rec>, q: seq<T>, tid: int, t: T, u: T)
    requires NoDup(q) && Ahead(q, t, u) && t in EraseFirst(heap, q, tid) && u in EraseFirst(heap, q, tid)
    ensures Ahead(EraseFirst(heap, q, tid), t, u)
  {
    var n := IndexOf(heap, q, tid);
    if n < |q| {
      CutKeepsOrder(q, n, t, u);
    }
  }

  lemma CutKeepsOrder<T>(q: seq<T>, n: nat, t: T, u: T)
    requires NoDup(q) && n < |q| && Ahead(q, t, u) && t in q[..n] + q[n + 1..] && u in q[..n] + q[n + 1..]
    ensures Ahead(q[..n] + q[n + 1..], t, u)
  {
    CutAt(q, n);
    var q' := q[..n] + q[n + 1..];
    var i: nat, j: nat :| i < j < |q| && q[i] == t && q[j] == u;
    var i', j' := if i < n then i else i - 1, if j < n then j else j - 1;
    assert q'[i'] == t && q'[j'] == u;
    AheadAt(q', i', j');
  }

  // ------------------------------------------------------ one scheduler invocation

  /** The sleepers with ids below `n` who become ready now. */
  ghost function Wakers<T>(s: State<T>, n: nat): seq<T> {
    if n == 0 then []
    else Wakers(s, n - 1) + if IsDue(s, n - 1) then [s.sleeping[n - 1]] else []
  }

  /** The thread with this id sleeps its last quantum and is not blocked. */
  ghost predicate IsDue<T>(s: State<T>, tid: int) {
    && tid in s.sleeping && s.sleeping[tid] in s.heap
    && s.heap[s.sleeping[tid]].state == SLEEP && s.heap[s.sleeping[tid]].sleep == 1
  }

  lemma TickOneReady<T>(s: State<T>, mid: State<T>, n: nat)
    requires Core(s) && OnlyWakes(s, mid, n) && StillAsleep(s, mid, n)
    ensures TickOne(mid, n).ready == mid.ready + if IsDue(s, n) then [s.sleeping[n]] else []
  {
    if n in s.sleeping {
      SleeperPlaced(s, n);
      assert mid.heap[s.sleeping[n]] == Woken(s, s.sleeping[n], n);
    }
    hide Core, Woken;
  }

  lemma {:induction false} TickReady<T>(s: State<T>, n: nat)
    requires Core(s)
    ensures TickUpTo(s, n).ready == s.ready + Wakers(s, n)
  {
    hide OnlyWakes, StillAsleep, TickUpTo, TickOne, Core, IsDue;
    if n == 0 {
      UpTo(s, 0);
    } else {
      TickReady(s, n - 1);
      UpTo(s, n - 1);
      CoreParts(s);
      TickEffect(s, n - 1);
      TickOneReady(s, TickUpTo(s, n - 1), n - 1);
    }
  }

  lemma {:induction false} WakersAre<T>(s: State<T>, n: nat)
    requires Core(s)
    ensures forall t :: t in Wakers(s, n) ==>
              t in s.heap && 0 <= s.heap[t].id < n && IsDue(s, s.heap[t].id) && s.sleeping[s.heap[t].id] == t
    ensures forall tid :: 0 <= tid < n && IsDue(s, tid) ==> s.sleeping[tid] in Wakers(s, n)
    ensures forall i, j :: 0 <= i < j < |Wakers(s, n)| ==> s.At(Wakers(s, n)[i]).id < s.At(Wakers(s, n)[j]).id
  {
    hide Core, IsDue;
    if n > 0 {
      WakersAre(s, n - 1);
      DueAt(s, n - 1);
      var w := Wakers(s, n - 1);
      forall i | 0 <= i < |w| ensures w[i] in s.heap && s.heap[w[i]].id < n - 1 {
        assert w[i] in w;
      }
    }
  }

  lemma DueAt<T>(s: State<T>, tid: int)
    requires Core(s)
    ensures IsDue(s, tid) ==> tid in s.sleeping && s.sleeping[tid] in s.heap && s.heap[s.sleeping[tid]].id == tid
  {
    if IsDue(s, tid) {
      SleeperPlaced(s, tid);
    }
  }

  /** An invocation, exactly: behind those who wait come the threads that wake,
      in the order of their ids, and behind them the running thread if it keeps
      its turn; the front of all these runs and the others wait, in this order. */
  lemma ScheduleIsQueue<T>(s: State<T>) returns (woken: seq<T>)
    requires Entered(s)
    ensures forall i, j :: 0 <= i < j < |woken| ==> s.At(woken[i]).id < s.At(woken[j]).id
    ensures forall t :: t in woken <==>
              && t in s.heap && s.heap[t].id in s.sleeping && s.sleeping[s.heap[t].id] == t
              && s.heap[t].state == SLEEP && s.heap[t].sleep == 1
    ensures s.running in s.heap
    ensures var r := s.heap[s.running];
            var queue := s.ready + woken + if r.state == RUNNING && !r.terminated then [s.running] else [];
            queue != [] && Schedule(s).running == queue[0] && Schedule(s).ready == queue[1..]
  {
    hide *;
    woken := Wakers(s, MAX_THREAD_NUM);
    EnteredCore(s);
    LiveAllocated(s, s.running);
    TickReady(s, MAX_THREAD_NUM);
    WakersAre(s, MAX_THREAD_NUM);
    DueIds(s);
    AfterRetire(s);
    var s3 := Retire(DeletePending(TickUpTo(s, MAX_THREAD_NUM)));
    SwitchIsQueue(s3);
    ScheduleIs(s);
  }

  lemma DueIds<T>(s: State<T>)
    requires Core(s)
    ensures forall tid :: IsDue(s, tid) ==> 0 <= tid < MAX_THREAD_NUM
    ensures forall tid :: IsDue(s, tid) <==>
              && tid in s.sleeping && s.sleeping[tid] in s.heap
              && s.heap[s.sleeping[tid]].state == SLEEP && s.heap[s.sleeping[tid]].sleep == 1
    ensures forall t :: t in s.heap ==> s.At(t) == s.heap[t]
  {
  }

  lemma AfterRetire<T>(s: State<T>)
    requires Entered(s)
    ensures var s3 := Retire(DeletePending(TickUpTo(s, MAX_THREAD_NUM)));
            && s.running in s.heap && s3.running == s.running && s3.running in s3.heap
            && s3.ready == TickUpTo(s, MAX_THREAD_NUM).ready
            && s3.heap[s3.running].state == s.heap[s.running].state
            && s3.heap[s3.running].terminated == s.heap[s.running].terminated
            && s.heap[s.running].state in {RUNNING, BLOCKED, SLEEP}
            && (!KeepsTurn(s3.heap[s3.running]) ==> s3.ready != [])
  {
    hide *;
    var s1 := TickUpTo(s, MAX_THREAD_NUM);
    var s2 := DeletePending(s1);
    TickCore(s, MAX_THREAD_NUM);
    WokenRunner(s, s1);
    LiveAllocated(s, s.running);
    LiveAllocated(s1, s.running);
    PendingGone(s1);
    LiveAllocated(s2, s.running);
    RetireCore(s2);
    RunnerLeft(Retire(s2));
  }

  lemma SwitchIsQueue<T>(s: State<T>)
    requires s.running in s.heap && s.heap[s.running].state in {RUNNING, BLOCKED, SLEEP}
    requires !KeepsTurn(s.heap[s.running]) ==> s.ready != []
    ensures var r := s.heap[s.running];
            var queue := s.ready + if r.state == RUNNING && !r.terminated then [s.running] else [];
            queue != [] && Switch(s).running == queue[0] && Switch(s).ready == queue[1..]
  {
    hide Switch;
    SwitchIs(s);
  }

  // ---------------------------------------------------------------- every step

  lemma ScheduledOrder<T>(s: State<T>, op: Op<T>) returns (more: seq<T>)
    requires Inv(s) && Allowed(s, op) && Schedules(s, op)
    ensures var s' := Step(s, op).state;
            s.ready + more != [] && s'.running == (s.ready + more)[0] && s'.ready == (s.ready + more)[1..]
  {
    hide *;
    EntryEntered(s, op);
    EntersReady(s, Entry(s, op));
    var e := Entry(s, op);
    var woken := ScheduleIsQueue(e);
    more := woken + if e.heap[e.running].state == RUNNING && !e.heap[e.running].terminated then [e.running] else [];
    assert e.ready + more == e.ready + woken
                             + if e.heap[e.running].state == RUNNING && !e.heap[e.running].terminated then [e.running] else [];
  }

  lemma EntersReady<T>(s: State<T>, e: State<T>)
    requires EntersFrom(s, e)
    ensures Entered(e) && e.ready == s.ready
  {
  }

  /** What a call that does not enter the scheduler does to the ready queue. */
  lemma QuietQueue<T>(s: State<T>, op: Op<T>) returns (tid: int, more: seq<T>)
    requires Inv(s) && Allowed(s, op) && !Schedules(s, op)
    ensures Step(s, op).state.ready == s.ready + more
         || (more == [] && Step(s, op).state.ready == Without(s.heap, s.ready, tid))
  {
    hide Inv, Core, Schedule, FreeTid, IndexOf, Without, EraseFirst;
    tid, more := 0, [];
    assert s.ready + more == s.ready;
    match op
    case Spawn(t) => if Step(s, op).state.ready != s.ready { more := [t]; }
    case Terminate(id) => tid := id;
      if id in s.threads { OwnerIds(s, id); }
    case Block(id) => tid := id;
    case Resume(id) =>
      var i := IndexOf(s.heap, s.blocked, id);
      if Step(s, op).state.ready != s.ready { more := [s.blocked[i]]; }
    case _ =>
  }

  lemma OwnerIds<T>(s: State<T>, tid: int)
    requires Inv(s) && tid in s.threads
    ensures s.threads[tid] in s.heap && s.heap[s.threads[tid]].id == tid
  {
  }

  lemma ReadyNoDup<T>(s: State<T>)
    requires Inv(s)
    ensures NoDup(s.ready) && s.running !in s.ready
  {
    assert Placed(s, s.running);
  }

  /** Whatever is called, threads that stay in the ready queue keep their order,
      and whoever joins it stands behind all who were there. */
  lemma StepKeepsOrder<T>(s: State<T>, op: Op<T>, t: T, u: T)
    requires Inv(s) && Allowed(s, op)
    requires t in s.ready && t in Step(s, op).state.ready && u in Step(s, op).state.ready
    requires Ahead(s.ready, t, u) || u !in s.ready
    ensures Ahead(Step(s, op).state.ready, t, u)
  {
    hide *;
    var s' := Step(s, op).state;
    StepInv(s, op);
    ReadyNoDup(s);
    ReadyNoDup(s');
    if Schedules(s, op) {
      var more := ScheduledOrder(s, op);
      JoinedOrder(s.ready, more, t, u);
      AheadTail(s.ready + more, t, u);
    } else {
      var tid, more := QuietQueue(s, op);
      if s'.ready == s.ready + more {
        JoinedOrder(s.ready, more, t, u);
      } else {
        Dropped(s.heap, s.ready, tid);
        WithoutKeepsOrder(s.heap, s.ready, tid, t, u);
      }
    }
  }

  lemma JoinedOrder<T>(q: seq<T>, more: seq<T>, t: T, u: T)
    requires t in q && u in q + more && (Ahead(q, t, u) || u !in q)
    ensures Ahead(q + more, t, u)
  {
    hide Ahead;
    if u !in q {
      AheadJoins(q, more, t, u);
    } else {
      AheadGrows(q, more, t, u);
    }
  }

  // ------------------------------------------------------------- the blocked vector

  lemma ScheduleListed<T>(s: State<T>) returns (heap: map<T, Rec>, tid: int)
    requires Entered(s)
    ensures Schedule(s).blocked == s.blocked || Schedule(s).blocked == EraseFirst(heap, s.blocked, tid)
  {
    hide *;
    var s1 := TickUpTo(s, MAX_THREAD_NUM);
    var s2 := DeletePending(s1);
    TickCore(s, MAX_THREAD_NUM);
    SameCollisions(s, s1);
    heap := s1.heap;
    tid := DeleteListed(s1);
    RetireBlocked(s2);
    SwitchBlocked(Retire(s2));
    ScheduleIs(s);
  }

  lemma DeleteListed<T>(s: State<T>) returns (tid: int)
    requires Core(s)
    ensures DeletePending(s).blocked == s.blocked || DeletePending(s).blocked == EraseFirst(s.heap, s.blocked, tid)
  {
    hide Core, EraseFirst, DeletePending;
    DeletePendingIs(s);
    tid := 0;
    if s.termination != map[] {
      var p :| Freed(s, DeletePending(s), p);
      tid := s.heap[p].id;
    }
  }

  lemma EntryListed<T>(s: State<T>, op: Op<T>) returns (more: seq<T>)
    requires Schedules(s, op) && EntersFrom(s, Entry(s, op))
    ensures Entered(Entry(s, op)) && NoDup(Entry(s, op).blocked) && Entry(s, op).blocked == s.blocked + more
  {
    more := if op.Block? then [s.threads[op.tid]] else [];
    assert s.blocked + [] == s.blocked;
  }

  lemma QuietListed<T>(s: State<T>, op: Op<T>) returns (tid: int, more: seq<T>)
    requires Inv(s) && Allowed(s, op) && !Schedules(s, op)
    ensures Step(s, op).state.blocked == s.blocked + more
         || (more == [] && Step(s, op).state.blocked == EraseFirst(s.heap, s.blocked, tid))
  {
    hide Inv, Core, Schedule, FreeTid, IndexOf, Without;
    tid, more := 0, [];
    assert s.blocked + more == s.blocked;
    match op
    case Terminate(id) => tid := id;
      if id in s.threads { OwnerIds(s, id); }
    case Block(id) => if Step(s, op).state.blocked != s.blocked { more := [s.threads[id]]; }
    case Resume(id) => tid := id;
    case _ =>
  }

  lemma BlockedNoDup<T>(s: State<T>)
    requires Inv(s)
    ensures NoDup(s.blocked)
  {
  }

  /** Entries of the blocked vector keep their order as well, and a thread that
      is blocked is listed behind all the others. */
  lemma StepKeepsBlockedOrder<T>(s: State<T>, op: Op<T>, t: T, u: T)
    requires Inv(s) && Allowed(s, op)
    requires t in s.blocked && t in Step(s, op).state.blocked && u in Step(s, op).state.blocked
    requires Ahead(s.blocked, t, u) || u !in s.blocked
    ensures Ahead(Step(s, op).state.blocked, t, u)
  {
    hide *;
    var s' := Step(s, op).state;
    BlockedNoDup(s);
    if Schedules(s, op) {
      EntryEntered(s, op);
      var e := Entry(s, op);
      var more := EntryListed(s, op);
      var heap, tid := ScheduleListed(e);
      Erased(heap, e.blocked, tid);
      JoinedOrder(s.blocked, more, t, u);
      if s'.blocked != e.blocked {
        EraseKeepsOrder(heap, e.blocked, tid, t, u);
      }
    } else {
      var tid, more := QuietListed(s, op);
      if s'.blocked == s.blocked + more {
        JoinedOrder(s.blocked, more, t, u);
      } else {
        Erased(s.heap, s.blocked, tid);
        EraseKeepsOrder(s.heap, s.blocked, tid, t, u);
      }
    }
  }
}

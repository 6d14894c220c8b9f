/** Thread ids, the freeing of thread objects, and a run that loses a blocked
    thread. */
module SchedulerReclaim {
  import opened SchedulerSpec
  import opened SchedulerInvariant
  import opened SchedulerRuns
  import opened SchedulerBlocking

  /** Spawning takes the smallest free id, and fails only when all are taken. */
  lemma SpawnId<T>(s: State<T>, t: T)
    requires Inv(s) && t !in s.heap
    ensures var o := DoSpawn(s, t);
            if |s.threads| < 100 then
              && 0 <= o.result < 100 && o.result !in s.threads
              && (forall i :: 0 <= i < o.result ==> i in s.threads)
              && o.state.threads == s.threads[o.result := t] && o.state.ready == s.ready + [t]
            else o.result == -1 && o.state == s
  {
    if |s.threads| < MAX_THREAD_NUM {
      FreeTidFound(s.threads);
    }
  }

  /** Some structure still refers to `t`. */
  ghost predicate Referenced<T>(s: State<T>, t: T) {
    || t == s.running || t in s.ready || t in s.blocked
    || (exists i :: i in s.threads && s.threads[i] == t)
    || (exists i :: i in s.sleeping && s.sleeping[i] == t)
    || (exists i :: i in s.termination && s.termination[i] == t)
  }

  /** Whatever is referenced is allocated, in every reachable state. */
  lemma ReferencedIsAllocated<T>(s: State<T>, t: T)
    requires Inv(s) && Referenced(s, t)
    ensures t in s.heap
  {
  }

  /** An object freed by a step is no longer referenced, so it is never freed
      again; and it was either pending or ended by that very call. */
  lemma FreedOnce<T>(s: State<T>, op: Op<T>, t: T)
    requires Inv(s) && Allowed(s, op) && t in s.heap && t !in Step(s, op).state.heap
    ensures !Referenced(Step(s, op).state, t) && t != s.running
    ensures (Schedules(s, op) && Pending(s, t)) || (op.Terminate? && op.tid == s.heap[t].id && Live(s, t))
  {
    hide *;
    StepInv(s, op);
    if Referenced(Step(s, op).state, t) {
      ReferencedIsAllocated(Step(s, op).state, t);
      assert false;
    }
    if Schedules(s, op) {
      FreedByScheduler(s, op, t);
    } else {
      FreedByCall(s, op, t);
    }
  }

  lemma FreedByScheduler<T>(s: State<T>, op: Op<T>, t: T)
    requires Inv(s) && Allowed(s, op) && Schedules(s, op) && t in s.heap && t !in Step(s, op).state.heap
    ensures Pending(s, t) && t != s.running
  {
    assert Placed(s, t);
    hide Schedule, Step, Entered, Allowed, Maps, Queues, Entry, Schedules;
    EntryEntered(s, op);
    ScheduleHeap(Entry(s, op), t);
  }

  /** An invocation frees the pending thread and no other. */
  lemma ScheduleHeap<T>(s: State<T>, t: T)
    requires Entered(s) && t in s.heap
    ensures t !in Schedule(s).heap <==> Pending(s, t)
  {
    hide *;
    var s1 := TickUpTo(s, MAX_THREAD_NUM);
    var s2 := DeletePending(s1);
    var s3 := Retire(s2);
    TickCore(s, MAX_THREAD_NUM);
    WokenRunner(s, s1);
    SameIdsAfterTick(s, s1, t);
    DeleteHeap(s1, t);
    PendingGone(s1);
    RetireCore(s2);
    LiveAllocated(s2, s2.running);
    SwitchHeap(s3, t);
    ScheduleIs(s);
  }

  lemma SameIdsAfterTick<T>(s: State<T>, s1: State<T>, t: T)
    requires OnlyWakes(s, s1, MAX_THREAD_NUM) && t in s.heap
    ensures t in s1.heap && (Pending(s1, t) <==> Pending(s, t))
  {
    assert s1.heap[t] == Woken(s, t, MAX_THREAD_NUM);
  }

  lemma DeleteHeap<T>(s: State<T>, t: T)
    requires Core(s) && t in s.heap
    ensures t !in DeletePending(s).heap <==> Pending(s, t)
  {
    DeletePendingIs(s);
    if s.termination != map[] {
      var p :| Freed(s, DeletePending(s), p);
      TerminationKey(s, s.heap[p].id);
    }
  }

  lemma SwitchHeap<T>(s: State<T>, t: T)
    requires Core(s) && s.running in s.heap
    ensures t in Switch(s).heap <==> t in s.heap
  {
    forall u | u in s.ready ensures u in s.heap {
      assert Live(s, u);
    }
  }

  lemma FreedByCall<T>(s: State<T>, op: Op<T>, t: T)
    requires Inv(s) && Allowed(s, op) && !Schedules(s, op) && t in s.heap && t !in Step(s, op).state.heap
    ensures op.Terminate? && op.tid == s.heap[t].id && Live(s, t) && t != s.running
  {
    hide Schedule, Removed, DeleteThread, Core, Inv, Live;
    RunningPlaced(s);
    if !op.Terminate? {
      CallKeepsHeap(s, op);
      assert false;
    } else if op.tid in s.threads {
      LiveOwner(s, op.tid);
      LiveAllocated(s, s.threads[op.tid]);
      NotEnded(s, s.threads[op.tid]);
      DeleteLive(s, s.threads[op.tid]);
      RemovedHeap(s, DeleteThread(s, s.threads[op.tid]), s.threads[op.tid]);
    }
  }

  lemma RemovedHeap<T>(s: State<T>, s': State<T>, t: T)
    requires Removed(s, s', t)
    ensures forall u :: u in s.heap && u != t ==> u in s'.heap
  {
  }

  lemma CallKeepsHeap<T>(s: State<T>, op: Op<T>)
    requires !op.Terminate? && !Schedules(s, op)
    ensures forall t :: t in s.heap ==> t in Step(s, op).state.heap
  {
    hide Schedule, FreeTid, IndexOf, Without, DoTerminate;
  }

  /** A thread that ended itself is freed in the very next invocation. */
  lemma PendingIsFreedNext<T>(s: State<T>, op: Op<T>, t: T)
    requires Inv(s) && Allowed(s, op) && Pending(s, t)
    ensures Schedules(s, op) <==> t !in Step(s, op).state.heap
  {
    assert Placed(s, t);
    if Schedules(s, op) {
      hide Schedule, Step, Entered, Allowed, Maps, Queues, Entry, Schedules;
      EntryEntered(s, op);
      ScheduleHeap(Entry(s, op), t);
    } else if t !in Step(s, op).state.heap {
      FreedByCall(s, op, t);
    }
  }

  // ------------------------------------------------------ a run that loses a thread

  lemma {:induction false} NobodySleeps<T>(s: State<T>, n: nat)
    requires s.sleeping == map[]
    ensures TickUpTo(s, n) == s
  {
    if n > 0 {
      NobodySleeps(s, n - 1);
    }
  }

  /** The scheduler when nobody sleeps and at most thread object `p` is pending. */
  lemma ScheduleAwake<T>(s: State<T>)
    requires s.sleeping == map[] && |s.termination| <= 1
    ensures s.termination == map[] ==> Schedule(s) == Switch(Retire(s))
    ensures forall k :: k in s.termination && 0 <= k < MAX_THREAD_NUM ==>
              Schedule(s) == Switch(Retire(DeleteThread(s, s.termination[k]).(termination := map[])))
  {
    hide Switch, Retire, DeleteThread;
    NobodySleeps(s, MAX_THREAD_NUM);
    DeleteUpToIs(s, MAX_THREAD_NUM, 0);
    forall k | k in s.termination && 0 <= k < MAX_THREAD_NUM
      ensures DeleteUpTo(s, MAX_THREAD_NUM) == DeleteThread(s, s.termination[k])
    {
      DeleteUpToIs(s, MAX_THREAD_NUM, k);
    }
  }

  /** The states of the run. Thread object 1 ends itself; the main thread,
      object 0, spawns object 2, which gets the same id, and blocks it. */
  ghost const LOSS: seq<State<nat>> := [
    Init(0),
    State(map[0 := Rec(RUNNING, 0, 1, 0, false), 1 := Rec(READY, 1, 0, 0, false)],
          map[0 := 0, 1 := 1], [1], [], map[], map[], 0, 1, 2, 0),
    State(map[0 := Rec(READY, 0, 1, 0, false), 1 := Rec(RUNNING, 1, 1, 0, false)],
          map[0 := 0, 1 := 1], [0], [], map[], map[], 1, 2, 2, 0),
    State(map[0 := Rec(RUNNING, 0, 2, 0, false), 1 := Rec(RUNNING, 1, 1, 0, true)],
          map[0 := 0], [], [], map[], map[1 := 1], 0, 3, 1, 0),
    State(map[0 := Rec(RUNNING, 0, 2, 0, false), 1 := Rec(RUNNING, 1, 1, 0, true), 2 := Rec(READY, 1, 0, 0, false)],
          map[0 := 0, 1 := 2], [2], [], map[], map[1 := 1], 0, 3, 2, 0),
    State(map[0 := Rec(RUNNING, 0, 2, 0, false), 1 := Rec(RUNNING, 1, 1, 0, true), 2 := Rec(BLOCKED, 1, 0, 0, false)],
          map[0 := 0, 1 := 2], [], [2], map[], map[1 := 1], 0, 3, 2, 0),
    State(map[0 := Rec(RUNNING, 0, 3, 0, false), 2 := Rec(BLOCKED, 1, 0, 0, false)],
          map[0 := 0, 1 := 2], [], [], map[], map[], 0, 4, 2, 1)]

  /** The moment thread object 1 has been put into `termination`. */
  ghost const RETIRED: State<nat> :=
    State(map[0 := Rec(READY, 0, 1, 0, false), 1 := Rec(RUNNING, 1, 1, 0, true)],
          map[0 := 0], [0], [], map[], map[1 := 1], 1, 2, 1, 0)

  lemma FirstSpawn()
    ensures LOSS[1] == DoSpawn(LOSS[0], 1).state
  {
    assert FreeTid(LOSS[0].threads, 1) == 1;
  }

  lemma FirstSwitch(s: State<nat>)
    requires s == LOSS[1]
    ensures Retire(s) == s && Switch(s) == LOSS[2]
  {
    hide Schedule, TickUpTo;
    var s1 := s.Put(0, Rec(READY, 0, 1, 0, false)).(ready := [1, 0]);
    assert [1] + [0] == [1, 0] && [1, 0][1..] == [0];
    assert s1.heap == map[0 := Rec(READY, 0, 1, 0, false), 1 := Rec(READY, 1, 0, 0, false)];
    assert s1.heap[1 := Rec(RUNNING, 1, 1, 0, false)]
        == map[0 := Rec(READY, 0, 1, 0, false), 1 := Rec(RUNNING, 1, 1, 0, false)];
  }

  lemma FirstTick()
    ensures LOSS[2] == Schedule(LOSS[1])
  {
    hide Switch, Retire, Schedule, TickUpTo, DeletePending;
    ScheduleAwake(LOSS[1]);
    FirstSwitch(LOSS[1]);
  }

  lemma SelfEnd()
    ensures LOSS[3] == DoTerminate(LOSS[2], 1).state
  {
    hide Schedule, DoTerminate, Switch, Retire, DeletePending, TickUpTo, DeleteThread;
    var e := LOSS[2].Put(1, Rec(RUNNING, 1, 1, 0, true));
    ScheduleAwake(e);
    SelfEndEnters();
    SelfEndRetires();
    SelfEndSwitches();
  }

  lemma SelfEndEnters()
    ensures DoTerminate(LOSS[2], 1).state == Schedule(LOSS[2].Put(1, Rec(RUNNING, 1, 1, 0, true)))
  {
    hide Schedule;
  }

  lemma SelfEndRetires()
    ensures Retire(LOSS[2].Put(1, Rec(RUNNING, 1, 1, 0, true))) == RETIRED
  {
    hide Schedule, Switch;
    var e := LOSS[2].Put(1, Rec(RUNNING, 1, 1, 0, true));
    assert e.heap == map[0 := Rec(READY, 0, 1, 0, false), 1 := Rec(RUNNING, 1, 1, 0, true)];
    assert e.threads - {1} == map[0 := 0];
    assert e.termination[1 := 1] == map[1 := 1];
    assert e.At(1) == Rec(RUNNING, 1, 1, 0, true) && Retire(e).heap == e.heap;
  }

  lemma SelfEndSwitches()
    ensures LOSS[3] == Switch(RETIRED)
  {
    hide Schedule, Retire;
    assert LOSS[3].heap == map[0 := Rec(READY, 0, 1, 0, false), 1 := Rec(RUNNING, 1, 1, 0, true)][0 := Rec(RUNNING, 0, 2, 0, false)];
  }

  lemma SecondSpawn()
    ensures LOSS[4] == DoSpawn(LOSS[3], 2).state
  {
    assert FreeTid(LOSS[3].threads, 1) == 1;
  }

  lemma BlockNew()
    ensures LOSS[5] == DoBlock(LOSS[4], 1).state
  {
    hide Schedule, FreeTid;
    assert LOSS[5].heap == LOSS[4].heap[2 := Rec(BLOCKED, 1, 0, 0, false)];
    assert Without(LOSS[4].heap, [2], 1) == Without(LOSS[4].heap, [2][1..], 1) == [];
  }

  lemma LastDelete(s: State<nat>)
    requires s == LOSS[5]
    ensures var s1 := DeleteThread(s, 1).(termination := map[]);
            s1 == State(map[0 := Rec(RUNNING, 0, 2, 0, false), 2 := Rec(BLOCKED, 1, 0, 0, false)],
                        map[0 := 0, 1 := 2], [], [], map[], map[], 0, 3, 2, 1)
  {
    hide Schedule, TickUpTo, Switch, Retire;
    assert IndexOf(s.heap, [2], 1) == 0;
    assert EraseFirst(s.heap, [2], 1) == [];
    assert s.heap - {1} == map[0 := Rec(RUNNING, 0, 2, 0, false), 2 := Rec(BLOCKED, 1, 0, 0, false)];
  }

  lemma LastTick()
    ensures LOSS[6] == Schedule(LOSS[5])
  {
    hide Schedule, TickUpTo, DeletePending, DeleteThread;
    var s1 := State<nat>.State(map[0 := Rec(RUNNING, 0, 2, 0, false), 2 := Rec(BLOCKED, 1, 0, 0, false)],
                    map[0 := 0, 1 := 2], [], [], map[], map[], 0, 3, 2, 1);
    ScheduleAwake(LOSS[5]);
    LastDelete(LOSS[5]);
    assert s1.heap[0 := Rec(RUNNING, 0, 3, 0, false)]
        == map[0 := Rec(RUNNING, 0, 3, 0, false), 2 := Rec(BLOCKED, 1, 0, 0, false)];
    assert Switch(Retire(s1)) == LOSS[6];
  }

  /** The blocked list is exact until the last tick, which erases the new
      thread's entry; before it, resuming the new thread is refused although
      the thread exists. */
  lemma EntryCanBeLost()
    ensures Run(LOSS, [Spawn(1), Tick, Terminate(1), Spawn(2), Block(1), Tick])
    ensures LOSS[0] == Init(0)
    ensures BlockedExact(LOSS[5]) && 1 in LOSS[5].threads && DoResume(LOSS[5], 1).result == -1
    ensures Lost(LOSS[6], 2, 1) && !BlockedExact(LOSS[6])
  {
    hide *;
    LossRuns();
    LossFacts();
  }

  lemma LossFacts()
    ensures LOSS[0] == Init(0)
    ensures BlockedExact(LOSS[5]) && 1 in LOSS[5].threads && DoResume(LOSS[5], 1).result == -1
    ensures Lost(LOSS[6], 2, 1) && !BlockedExact(LOSS[6])
  {
    hide Schedule, DoSpawn, DoBlock, DoTerminate, IndexOf;
  }

  lemma LossAllowed()
    ensures |LOSS| == 7 && Allowed(LOSS[0], Spawn(1)) && Allowed(LOSS[3], Spawn(2)) && Inv(LOSS[0])
  {
    InitInv<nat>(0);
    hide Inv;
  }

  lemma LossRuns()
    ensures Run(LOSS, [Spawn(1), Tick, Terminate(1), Spawn(2), Block(1), Tick])
  {
    hide LOSS, Schedule, DoSpawn, DoBlock, DoTerminate, Inv;
    LossAllowed();
    FirstSpawn();
    FirstTick();
    SelfEnd();
    SecondSpawn();
    BlockNew();
    LastTick();
  }
}

/** When the blocked list is exact, when it is not, and what a lost entry means. */
module SchedulerBlocking {
  import opened SchedulerSpec
  import opened SchedulerInvariant
  import opened SchedulerRuns

  /** Every blocked thread is in the blocked list. */
  ghost predicate BlockedExact<T>(s: State<T>) {
    forall t :: t in s.heap && Live(s, t) && Blocks(s.heap[t].state) ==> t in s.blocked
  }

  /** A blocked thread has the id of a thread that waits to be freed. */
  ghost predicate Collides<T>(s: State<T>) {
    exists t :: t in s.blocked && s.At(t).id in s.termination
  }

  /** No id is both in use and waiting to be freed. */
  ghost predicate IdsDisjoint<T>(s: State<T>) {
    forall i :: i in s.threads ==> i !in s.termination
  }

  /** The running thread does not have the id of one that waits to be freed. */
  ghost predicate RunnerIdFree<T>(s: State<T>) {
    s.At(s.running).id !in s.termination
  }

  // --------------------------------------------------- one scheduler invocation

  lemma TerminationKey<T>(s: State<T>, k: int)
    requires |s.termination| <= 1 && k in s.termination
    ensures forall i :: i in s.termination <==> i == k
  {
    forall i | i in s.termination ensures i == k {
      AtMostOne(s.termination, i, k);
    }
  }

  /** Freeing the pending thread erases a blocked entry exactly on a collision. */
  lemma DeleteBlocked<T>(s: State<T>)
    requires Core(s)
    ensures !Collides(s) ==> DeletePending(s).blocked == s.blocked
    ensures forall t :: t in s.blocked && s.heap[t].id in s.termination ==> t !in DeletePending(s).blocked
  {
    DeletePendingIs(s);
    if s.termination != map[] {
      var p :| Freed(s, DeletePending(s), p);
      var k := s.heap[p].id;
      TerminationKey(s, k);
      var i := IndexOf(s.heap, s.blocked, k);
      assert i < |s.blocked| ==> s.At(s.blocked[i]).id in s.termination;
      forall t | t in s.blocked && s.heap[t].id in s.termination ensures t !in DeletePending(s).blocked {
        assert Live(s, t);
        EraseLive(s, t);
      }
    }
  }

  lemma SwitchBlocked<T>(s: State<T>)
    ensures Switch(s).blocked == s.blocked && Switch(s).termination == s.termination && Switch(s).threads == s.threads
  {
    hide StartQuantum, KeepsTurn;
    var s1 := s.Put(s.running, s.At(s.running).(state := READY)).(ready := s.ready + [s.running]);
    StartBlocked(s);
    StartBlocked(s1.(running := s1.ready[0], ready := s1.ready[1..]));
    if s.ready != [] {
      StartBlocked(s.(running := s.ready[0], ready := s.ready[1..]));
    }
  }

  lemma StartBlocked<T>(s: State<T>)
    ensures var s' := StartQuantum(s);
            s'.blocked == s.blocked && s'.termination == s.termination && s'.threads == s.threads
  {
  }

  /** Waking sleepers moves no thread into or out of the blocked states. */
  lemma WokenBlocks<T>(s: State<T>, t: T)
    requires Core(s) && Live(s, t)
    ensures t in s.heap && (Blocks(Woken(s, t, MAX_THREAD_NUM).state) <==> Blocks(s.heap[t].state))
  {
    assert Placed(s, t);
  }

  /** After an invocation: who is listed, and that no id in use is pending. */
  lemma ScheduleBlocked<T>(s: State<T>)
    requires Entered(s)
    ensures var s' := Schedule(s);
            && (!Collides(s) ==> s'.blocked == s.blocked)
            && (forall t :: t in s.blocked && s.At(t).id in s.termination ==> t !in s'.blocked)
            && IdsDisjoint(s')
  {
    hide *;
    var s1 := TickUpTo(s, MAX_THREAD_NUM);
    var s2 := DeletePending(s1);
    var s3 := Retire(s2);
    TickCore(s, MAX_THREAD_NUM);
    WokenRunner(s, s1);
    SameCollisions(s, s1);
    DeleteBlocked(s1);
    PendingGone(s1);
    RetireCore(s2);
    RetireIds(s2);
    SwitchBlocked(s3);
    ScheduleIs(s);
    SameIds(s3, Switch(s3));
  }

  lemma SameIds<T>(s: State<T>, s': State<T>)
    requires IdsDisjoint(s) && s'.threads == s.threads && s'.termination == s.termination
    ensures IdsDisjoint(s')
  {
  }

  lemma RetireIds<T>(s: State<T>)
    requires s.termination == map[]
    ensures IdsDisjoint(Retire(s))
  {
  }

  lemma SameCollisions<T>(s: State<T>, s1: State<T>)
    requires Entered(s) && OnlyWakes(s, s1, MAX_THREAD_NUM)
    ensures Collides(s1) <==> Collides(s)
    ensures s1.blocked == s.blocked
    ensures forall t :: t in s.blocked ==> t in s1.heap
    ensures forall t :: t in s.blocked && s.At(t).id in s.termination ==> s1.heap[t].id in s1.termination
  {
    forall t | t in s.blocked ensures t in s.heap && t in s1.heap && s1.heap[t].id == s.heap[t].id {
      assert Live(s, t);
      assert s1.heap[t] == Woken(s, t, MAX_THREAD_NUM);
    }
    if Collides(s) {
      var t :| t in s.blocked && s.At(t).id in s.termination;
      assert s1.At(t).id in s1.termination;
    }
    if Collides(s1) {
      var t :| t in s1.blocked && s1.At(t).id in s1.termination;
      assert s.At(t).id in s.termination;
    }
  }

  lemma StillBlocked<T>(s: State<T>, t: T)
    requires Entered(s) && t in s.heap && Live(s, t) && Blocks(s.heap[t].state)
    ensures var s' := Schedule(s);
            t in s'.heap && Live(s', t) && Blocks(s'.heap[t].state)
  {
    assert Placed(s, t);
    ScheduleRecord(s, t);
    WokenBlocks(s, t);
  }

  lemma WasBlocked<T>(s: State<T>, t: T)
    requires Entered(s) && t in Schedule(s).heap && Live(Schedule(s), t) && Blocks(Schedule(s).heap[t].state)
    ensures t in s.heap && Live(s, t) && Blocks(s.heap[t].state)
  {
    hide Schedule, Switch, Retire, DeletePending, TickUpTo;
    ScheduleInv(s);
    assert Placed(Schedule(s), t);
    if t == s.running && s.heap[t].state == RUNNING {
      RunnerRequeued(s);
    } else {
      ScheduleRecord(s, t);
      WokenBlocks(s, t);
    }
  }

  /** A running thread that only lost its turn is ready or runs on. */
  lemma RunnerRequeued<T>(s: State<T>)
    requires Entered(s) && s.heap[s.running].state == RUNNING && !s.heap[s.running].terminated
    ensures var s' := Schedule(s);
            s.running in s'.heap && (s'.heap[s.running].state == READY || s'.heap[s.running].state == RUNNING)
  {
    hide *;
    var s1 := TickUpTo(s, MAX_THREAD_NUM);
    var s2 := DeletePending(s1);
    TickCore(s, MAX_THREAD_NUM);
    WokenRunner(s, s1);
    PendingGone(s1);
    RetireCore(s2);
    LiveAllocated(s2, s2.running);
    SwitchRunner(s2);
    ScheduleIs(s);
  }

  lemma SwitchRunner<T>(s: State<T>)
    requires s.running in s.heap && s.heap[s.running].state == RUNNING && !s.heap[s.running].terminated
    ensures var s' := Switch(s);
            s.running in s'.heap && (s'.heap[s.running].state == READY || s'.heap[s.running].state == RUNNING)
  {
    hide Switch;
    SwitchIs(s);
  }

  /** An invocation keeps the list exact if and only if nothing collides. */
  lemma ScheduleExact<T>(s: State<T>)
    requires Entered(s) && BlockedExact(s)
    ensures BlockedExact(Schedule(s)) <==> !Collides(s)
  {
    hide Schedule, Inv, Entered, Live, Blocks;
    var s' := Schedule(s);
    ScheduleBlocked(s);
    if Collides(s) {
      var t :| t in s.blocked && s.At(t).id in s.termination;
      ListedIsBlocked(s, t);
      StillBlocked(s, t);
    } else {
      forall t | t in s'.heap && Live(s', t) && Blocks(s'.heap[t].state) ensures t in s'.blocked {
        WasBlocked(s, t);
      }
    }
  }

  lemma ListedIsBlocked<T>(s: State<T>, t: T)
    requires Entered(s) && t in s.blocked
    ensures t in s.heap && Live(s, t) && Blocks(s.heap[t].state)
  {
  }

  // ------------------------------------------------------------------ one step

  lemma EntryExact<T>(s: State<T>, op: Op<T>)
    requires Inv(s) && Allowed(s, op) && Schedules(s, op) && BlockedExact(s) && RunnerIdFree(s)
    ensures BlockedExact(Entry(s, op))
    ensures Collides(Entry(s, op)) <==> Collides(s)
  {
    hide Schedule, Step, Entered, Allowed, Core, Inv, Live, BlockedExact, Collides, RunnerIdFree;
    EntryEntered(s, op);
    var e := Entry(s, op);
    RunningPlaced(s);
    LiveAllocated(s, s.running);
    if op.Block? {
      RunsAlone(s, op);
    } else if op.Terminate? {
      RunsAlone(s, op);
    }
    BlockedAreLive(s);
    EntryCollides(s, e);
    EntryBlocks(s, e);
  }

  lemma BlockedAreLive<T>(s: State<T>)
    requires Inv(s)
    ensures forall t :: t in s.blocked ==> t in s.heap && t != s.running
  {
    forall t | t in s.blocked ensures t in s.heap && t != s.running {
      assert Live(s, t) && Placed(s, s.running);
    }
  }

  lemma EntryCollides<T>(s: State<T>, e: State<T>)
    requires EntersFrom(s, e) && RunnerIdFree(s)
    requires e.blocked == s.blocked || e.blocked == s.blocked + [s.running]
    requires forall t :: t in s.blocked ==> t in s.heap && t != s.running
    ensures Collides(e) <==> Collides(s)
  {
    hide Entered, Live;
    if Collides(s) {
      var t :| t in s.blocked && s.At(t).id in s.termination;
      assert t in e.blocked && e.At(t).id in e.termination;
    }
    if Collides(e) {
      var t :| t in e.blocked && e.At(t).id in e.termination;
      assert t in s.blocked && s.At(t).id in s.termination;
    }
  }

  lemma EntryBlocks<T>(s: State<T>, e: State<T>)
    requires EntersFrom(s, e) && BlockedExact(s)
    requires e.blocked == s.blocked || e.blocked == s.blocked + [s.running]
    requires e.blocked == s.blocked ==> !Blocks(e.At(s.running).state)
    ensures BlockedExact(e)
  {
    hide Entered, Live;
  }

  lemma QuietExact<T>(s: State<T>, op: Op<T>)
    requires Inv(s) && Allowed(s, op) && !Schedules(s, op) && BlockedExact(s)
    ensures BlockedExact(Step(s, op).state)
  {
    hide *;
    match op
    case Spawn(t) => QuietSpawn(s, t);
    case Terminate(tid) =>
      QuietCalls(s, op);
      QuietTerminate(s, tid);
    case Block(tid) =>
      QuietCalls(s, op);
      QuietBlock(s, tid);
    case Resume(tid) =>
      QuietCalls(s, op);
      QuietResume(s, tid);
    case _ => QuietCalls(s, op);
  }

  lemma QuietCalls<T>(s: State<T>, op: Op<T>)
    requires Allowed(s, op) && !Schedules(s, op)
    ensures op.Tick? || op.Sleep? ==> Step(s, op).state == s
    ensures op.Terminate? ==> op.tid != 0 && (op.tid in s.threads ==> s.At(s.threads[op.tid]).state != RUNNING)
    ensures op.Terminate? ==> Step(s, op) == DoTerminate(s, op.tid)
    ensures op.Block? ==> Step(s, op) == DoBlock(s, op.tid)
    ensures op.Block? && op.tid in s.threads && op.tid != 0 ==> s.At(s.threads[op.tid]).state != RUNNING
    ensures op.Resume? ==> Step(s, op) == DoResume(s, op.tid)
  {
    hide DoTerminate, DoBlock, DoResume, DoSpawn, Schedule;
  }

  lemma QuietSpawn<T>(s: State<T>, t: T)
    requires Inv(s) && Allowed(s, Op<T>.Spawn(t)) && BlockedExact(s)
    ensures BlockedExact(Step(s, Op<T>.Spawn(t)).state)
  {
    hide Core, Schedule, FreeTid, DoTerminate, DoBlock, DoResume, DoSleep;
    if s.count < MAX_THREAD_NUM {
      FreeTidFound(s.threads) by {
        ThreadsCounted(s);
      }
      SpawnLive(s, DoSpawn(s, t).state, t, FreeTid(s.threads, 0));
    }
  }

  lemma ThreadsCounted<T>(s: State<T>)
    requires Inv(s)
    ensures |s.threads| == s.count
  {
  }

  lemma QuietTerminate<T>(s: State<T>, tid: int)
    requires Inv(s) && tid != 0 && BlockedExact(s)
    requires tid in s.threads ==> s.At(s.threads[tid]).state != RUNNING
    ensures BlockedExact(DoTerminate(s, tid).state)
  {
    hide Schedule, EraseFirst, Without;
    if tid in s.threads {
      var t := s.threads[tid];
      LiveOwner(s, tid);
      assert Placed(s, t);
      DeleteLive(s, t);
      RemovedCore(s, DeleteThread(s, t), t);
    }
  }

  lemma QuietBlock<T>(s: State<T>, tid: int)
    requires Inv(s) && BlockedExact(s)
    requires tid in s.threads && tid != 0 ==> s.At(s.threads[tid]).state != RUNNING
    ensures BlockedExact(DoBlock(s, tid).state)
  {
    hide Schedule, Without;
    if tid in s.threads && tid != 0 {
      LiveOwner(s, tid);
    }
  }

  lemma QuietResume<T>(s: State<T>, tid: int)
    requires Inv(s) && BlockedExact(s)
    ensures BlockedExact(DoResume(s, tid).state)
  {
    hide Core, Inv, Schedule;
    RunningPlaced(s);
    var i := IndexOf(s.heap, s.blocked, tid);
    if tid !in s.termination && tid in s.threads && i < |s.blocked| {
      LiveOwner(s, tid);
      EraseLive(s, s.threads[tid]);
      ResumeExact(s, tid, i);
    }
  }

  lemma ResumeExact<T>(s: State<T>, tid: int, i: nat)
    requires BlockedExact(s) && tid in s.threads && tid !in s.termination && i < |s.blocked|
    requires i == IndexOf(s.heap, s.blocked, tid) && s.blocked[i] == s.threads[tid]
    requires s.threads[tid] in s.heap && s.heap[s.threads[tid]].id == tid
    ensures BlockedExact(DoResume(s, tid).state)
  {
    hide IndexOf, Blocks;
    var s', t := DoResume(s, tid).state, s.threads[tid];
    assert s'.blocked == s.blocked[..i] + s.blocked[i + 1..];
    BlocksOnly();
    forall u | u in s.blocked && u != t ensures u in s'.blocked {
      var k :| 0 <= k < |s.blocked| && s.blocked[k] == u;
      if k < i {
        assert s'.blocked[k] == u;
      } else {
        assert s'.blocked[k - 1] == u;
      }
    }
  }

  lemma BlocksOnly()
    ensures forall st :: Blocks(st) <==> st == BLOCKED || st == SLEEP_BLOCK
  {
  }

  /** The running thread's id is never that of a thread waiting to be freed. */
  lemma RunnerStaysFree<T>(s: State<T>, op: Op<T>)
    requires Inv(s) && Allowed(s, op) && RunnerIdFree(s)
    ensures RunnerIdFree(Step(s, op).state)
  {
    hide *;
    if Schedules(s, op) {
      EntryEntered(s, op);
      EntersEntered(s, Entry(s, op));
      ScheduleBlocked(Entry(s, op));
      StepInv(s, op);
      RunnerDisjoint(Step(s, op).state);
    } else {
      RunnerQuiet(s, op);
    }
  }

  lemma RunnerDisjoint<T>(s: State<T>)
    requires Inv(s) && IdsDisjoint(s)
    ensures RunnerIdFree(s)
  {
  }

  lemma RunnerQuiet<T>(s: State<T>, op: Op<T>)
    requires Inv(s) && Allowed(s, op) && RunnerIdFree(s) && !Schedules(s, op)
    ensures RunnerIdFree(Step(s, op).state)
  {
    hide Core, Inv, Schedule, FreeTid, Without, IndexOf, DeleteThread, Live, Removed;
    RunningPlaced(s);
    LiveAllocated(s, s.running);
    if op.Terminate? && op.tid in s.threads {
      LiveOwner(s, op.tid);
      LiveAllocated(s, s.threads[op.tid]);
      NotEnded(s, s.threads[op.tid]);
      DeleteLive(s, s.threads[op.tid]);
      RemovedSpares(s, DeleteThread(s, s.threads[op.tid]), s.threads[op.tid], s.running);
    }
  }

  /** The blocked list stays exact in a step if and only if the step does not
      enter the scheduler while a blocked thread has a pending id. */
  lemma StepExact<T>(s: State<T>, op: Op<T>)
    requires Inv(s) && Allowed(s, op) && BlockedExact(s) && RunnerIdFree(s)
    ensures BlockedExact(Step(s, op).state) <==> !(Schedules(s, op) && Collides(s))
  {
    hide *;
    if Schedules(s, op) {
      EntryEntered(s, op);
      EntersEntered(s, Entry(s, op));
      EntryExact(s, op);
      ScheduleExact(Entry(s, op));
    } else {
      QuietExact(s, op);
    }
  }

  lemma EntersEntered<T>(s: State<T>, e: State<T>)
    requires EntersFrom(s, e)
    ensures Entered(e)
  {
  }

  // --------------------------------------------------------------- whole runs

  /** A spawn that takes the id of a thread still waiting to be freed. */
  ghost predicate ReusesPendingId<T>(s: State<T>, op: Op<T>) {
    op.Spawn? && s.count < MAX_THREAD_NUM && FreeTid(s.threads, 0) in s.termination
  }

  lemma DisjointStep<T>(s: State<T>, op: Op<T>)
    requires Inv(s) && Allowed(s, op) && IdsDisjoint(s) && !ReusesPendingId(s, op)
    ensures IdsDisjoint(Step(s, op).state)
  {
    hide *;
    if Schedules(s, op) {
      EntryEntered(s, op);
      EntersEntered(s, Entry(s, op));
      ScheduleBlocked(Entry(s, op));
    } else {
      DisjointQuiet(s, op);
    }
  }

  lemma DisjointQuiet<T>(s: State<T>, op: Op<T>)
    requires Inv(s) && Allowed(s, op) && IdsDisjoint(s) && !ReusesPendingId(s, op) && !Schedules(s, op)
    ensures IdsDisjoint(Step(s, op).state)
  {
    hide Schedule, Core, FreeTid, Without, EraseFirst;
    RunningPlaced(s);
    if op.Terminate? && op.tid in s.threads {
      LiveOwner(s, op.tid);
    }
  }

  lemma DisjointNeverCollides<T>(s: State<T>)
    requires Inv(s) && IdsDisjoint(s)
    ensures !Collides(s) && RunnerIdFree(s)
  {
    forall t | t in s.blocked ensures s.At(t).id !in s.termination {
      assert Live(s, t);
    }
  }

  /** If no spawn reuses a pending id, the blocked list is exact all along. */
  lemma {:induction false} RunExact<T>(states: seq<State<T>>, ops: seq<Op<T>>, i: nat)
    requires Run(states, ops) && i <= |ops|
    requires BlockedExact(states[0]) && IdsDisjoint(states[0])
    requires forall m :: 0 <= m < i ==> !ReusesPendingId(states[m], ops[m])
    ensures BlockedExact(states[i]) && IdsDisjoint(states[i])
  {
    hide Inv, Allowed, Step, BlockedExact, IdsDisjoint, ReusesPendingId, Collides, RunnerIdFree;
    if i > 0 {
      RunExact(states, ops, i - 1);
      RunInv(states, ops, i - 1);
      DisjointNeverCollides(states[i - 1]);
      StepExact(states[i - 1], ops[i - 1]);
      DisjointStep(states[i - 1], ops[i - 1]);
    }
  }

  /** Over a whole run from the start: the blocked list is exact all along if
      and only if no step enters the scheduler while a blocked thread has the id
      of a thread waiting to be freed. */
  lemma {:induction false} ExactThroughout<T>(main: T, states: seq<State<T>>, ops: seq<Op<T>>, n: nat)
    requires Run(states, ops) && states[0] == Init(main) && n <= |ops|
    ensures RunnerIdFree(states[n])
    ensures (forall j :: 0 <= j <= n ==> BlockedExact(states[j]))
       <==> (forall m :: 0 <= m < n ==> !(Schedules(states[m], ops[m]) && Collides(states[m])))
  {
    hide *;
    RunAt(states, ops, 0);
    if n == 0 {
      StartExact(main);
    } else {
      var s, op := states[n - 1], ops[n - 1];
      ExactThroughout(main, states, ops, n - 1);
      RunInv(states, ops, n - 1);
      RunAt(states, ops, n - 1);
      RunnerStaysFree(s, op);
      if BlockedExact(s) {
        StepExact(s, op);
      }
    }
  }

  lemma StartExact<T>(main: T)
    ensures BlockedExact(Init(main)) && RunnerIdFree(Init(main))
  {
  }

  lemma RunAt<T>(states: seq<State<T>>, ops: seq<Op<T>>, i: nat)
    requires Run(states, ops) && i <= |ops|
    ensures |states| == |ops| + 1
    ensures i < |ops| ==> Allowed(states[i], ops[i]) && states[i + 1] == Step(states[i], ops[i]).state
  {
  }

  // ------------------------------------------------------------- a lost entry

  /** Blocked, but no longer in the blocked list. */
  ghost predicate Lost<T>(s: State<T>, t: T, tid: int) {
    Live(s, t) && s.heap[t].id == tid && s.heap[t].state == BLOCKED && t !in s.blocked
  }

  /** No call and no tick brings a lost thread back, short of ending it. */
  lemma LostStays<T>(s: State<T>, op: Op<T>, t: T, tid: int)
    requires Inv(s) && Allowed(s, op) && Lost(s, t, tid) && op != Terminate(tid)
    ensures Lost(Step(s, op).state, t, tid)
  {
    assert Placed(s, t);
    if Schedules(s, op) {
      LostScheduled(s, op, t, tid);
    } else {
      LostQuiet(s, op, t, tid);
    }
  }

  lemma LostScheduled<T>(s: State<T>, op: Op<T>, t: T, tid: int)
    requires Inv(s) && Allowed(s, op) && Schedules(s, op) && Lost(s, t, tid)
    ensures Lost(Step(s, op).state, t, tid)
  {
    var e := Entry(s, op);
    assert t !in e.blocked && t != s.running && t in s.heap && Live(s, t) by {
      if op.Block? {
        LiveOwner(s, op.tid);
      }
    }
    hide Schedule, Step, Entered, Allowed, Maps, Entry, Schedules;
    EntryEntered(s, op);
    EntersFacts(s, e, t);
    ScheduleRecord(e, t);
    BlockedNeverGrows(e);
    assert Placed(s, t);
    assert Woken(e, t, MAX_THREAD_NUM) == e.heap[t] by {
      EntersEntered(s, e);
      NotAsleep(e, t);
    }
  }

  lemma NotAsleep<T>(e: State<T>, t: T)
    requires Entered(e) && Live(e, t) && e.heap[t].state == BLOCKED
    ensures Woken(e, t, MAX_THREAD_NUM) == e.heap[t]
  {
    assert Placed(e, t);
  }

  lemma BlockedNeverGrows<T>(s: State<T>)
    requires Entered(s)
    ensures forall t :: t in Schedule(s).blocked ==> t in s.blocked
  {
    hide *;
    var s1 := TickUpTo(s, MAX_THREAD_NUM);
    var s2 := DeletePending(s1);
    var s3 := Retire(s2);
    TickCore(s, MAX_THREAD_NUM);
    SameCollisions(s, s1);
    DeleteShrinks(s1);
    SwitchBlocked(s3);
    RetireBlocked(s2);
    ScheduleIs(s);
  }

  lemma RetireBlocked<T>(s: State<T>)
    ensures Retire(s).blocked == s.blocked
  {
  }

  lemma DeleteShrinks<T>(s: State<T>)
    requires Core(s)
    ensures forall t :: t in DeletePending(s).blocked ==> t in s.blocked
  {
    DeletePendingIs(s);
    if s.termination != map[] {
      var p :| Freed(s, DeletePending(s), p);
      Erased(s.heap, s.blocked, s.heap[p].id);
    }
  }

  lemma LostQuiet<T>(s: State<T>, op: Op<T>, t: T, tid: int)
    requires Inv(s) && Allowed(s, op) && !Schedules(s, op) && Lost(s, t, tid) && op != Terminate(tid)
    ensures Lost(Step(s, op).state, t, tid)
  {
    match op
    case Tick =>
    case Sleep(_) =>
    case Spawn(u) =>
    case Terminate(id) => LostTerminate(s, id, t, tid);
    case Block(id) => LostBlock(s, id, t, tid);
    case Resume(id) => LostResume(s, id, t, tid);
  }

  lemma LostTerminate<T>(s: State<T>, id: int, t: T, tid: int)
    requires Inv(s) && id != 0 && id != tid && Lost(s, t, tid)
    requires id in s.threads ==> s.At(s.threads[id]).state != RUNNING
    ensures Lost(DoTerminate(s, id).state, t, tid)
  {
    hide Schedule, DeleteThread, Core, Inv, Live, Removed;
    RunningPlaced(s);
    if id in s.threads {
      LostIsLive(s, t, tid);
      LiveOwner(s, id);
      LiveAllocated(s, t);
      NotEnded(s, s.threads[id]);
      DeleteLive(s, s.threads[id]);
      RemovedSpares(s, DeleteThread(s, s.threads[id]), s.threads[id], t);
    }
  }

  lemma LostIsLive<T>(s: State<T>, t: T, tid: int)
    requires Lost(s, t, tid)
    ensures Live(s, t) && t in s.heap && s.heap[t].id == tid
  {
  }

  lemma LostBlock<T>(s: State<T>, id: int, t: T, tid: int)
    requires Inv(s) && Lost(s, t, tid)
    requires id in s.threads && id != 0 ==> s.At(s.threads[id]).state != RUNNING
    ensures Lost(DoBlock(s, id).state, t, tid)
  {
    hide Schedule, Without;
  }

  lemma LostResume<T>(s: State<T>, id: int, t: T, tid: int)
    requires Inv(s) && Lost(s, t, tid)
    ensures Lost(DoResume(s, id).state, t, tid)
  {
    var i := IndexOf(s.heap, s.blocked, id);
    if id in s.threads && i < |s.blocked| {
      LiveOwner(s, id);
      EraseLive(s, s.threads[id]);
    }
  }

  /** A lost thread never runs again. */
  lemma {:induction false} LostForGood<T>(states: seq<State<T>>, ops: seq<Op<T>>, t: T, tid: int, i: nat)
    requires Run(states, ops) && i <= |ops| && Lost(states[0], t, tid)
    requires forall m :: 0 <= m < i ==> ops[m] != Terminate(tid)
    ensures Lost(states[i], t, tid) && states[i].running != t
  {
    RunInv(states, ops, i);
    if i > 0 {
      LostForGood(states, ops, t, tid, i - 1);
      RunInv(states, ops, i - 1);
      LostStays(states[i - 1], ops[i - 1], t, tid);
    }
  }
}

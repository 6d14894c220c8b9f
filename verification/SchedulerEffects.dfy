/** What the calls of the thread library promise: when they fail, and what
    they do to the thread they name. */
module SchedulerEffects {
  import opened SchedulerSpec
  import opened SchedulerInvariant
  import opened SchedulerRuns
  import opened SchedulerBlocking

  /** Some thread currently has this id. */
  ghost predicate Exists<T>(s: State<T>, tid: int) {
    exists t :: t in s.heap && Live(s, t) && s.heap[t].id == tid
  }

  lemma ExistsIs<T>(s: State<T>, tid: int)
    requires Inv(s)
    ensures Exists(s, tid) <==> tid in s.threads
  {
    if tid in s.threads {
      LiveOwner(s, tid);
      assert s.threads[tid] in s.heap && Live(s, s.threads[tid]);
    }
  }

  /** A call fails exactly when its documentation says so, except that resuming
      also fails while an ended thread with the same id waits to be freed; a
      failed call changes nothing. */
  lemma FailsWhen<T>(s: State<T>, op: Op<T>)
    requires Inv(s) && Allowed(s, op)
    ensures var o := Step(s, op);
            && (o.result == -1 ==> o.state == s)
            && (o.result != -1 && !op.Spawn? ==> o.result == 0)
            && (o.result == -1 <==>
                  match op
                  case Spawn(_) => |s.threads| == 100
                  case Terminate(tid) => !Exists(s, tid)
                  case Block(tid) => !Exists(s, tid) || tid == 0
                  case Resume(tid) => !Exists(s, tid) || tid in s.termination
                  case Sleep(quanta) => s.At(s.running).id == 0 || quanta <= 0
                  case Tick => false)
  {
    hide Inv, Core, Schedule, DeleteThread, FreeTid, IndexOf, Without, Exists;
    match op
    case Terminate(tid) => ExistsIs(s, tid);
    case Block(tid) => ExistsIs(s, tid);
    case Resume(tid) => ExistsIs(s, tid);
    case Spawn(_) =>
      ThreadsCounted(s);
      QueueBound(s);
      if s.count < MAX_THREAD_NUM {
        FreeTidFound(s.threads);
      }
    case _ =>
  }

  /** A thread that was ended can no longer be named. */
  lemma EndedIsGone<T>(s: State<T>, tid: int)
    requires Inv(s) && tid != 0 && tid in s.threads
    ensures tid !in DoTerminate(s, tid).state.threads
  {
    hide *;
    var t, op := s.threads[tid], Op<T>.Terminate(tid);
    OwnerIsLive(s, tid);
    StepIs(s, tid);
    StepInv(s, op);
    var s' := Step(s, op).state;
    if s.heap[t].state == RUNNING {
      EndSchedules(s, tid);
      EntryEntered(s, op);
      EndEntered(s, Entry(s, op), t);
      ScheduleInv(Entry(s, op));
      NotLive(s, Entry(s, op), s', tid);
    } else {
      NotEnded(s, t);
      DeleteLive(s, t);
      RemovedId(s, DeleteThread(s, t), t);
      TerminateDeletes(s, tid);
    }
  }

  lemma OwnerIsLive<T>(s: State<T>, tid: int)
    requires Inv(s) && tid in s.threads
    ensures Core(s) && Live(s, s.threads[tid]) && s.threads[tid] in s.heap && s.heap[s.threads[tid]].id == tid
  {
  }

  lemma StepIs<T>(s: State<T>, tid: int)
    requires tid != 0
    ensures Step(s, Op<T>.Terminate(tid)) == DoTerminate(s, tid) && Allowed(s, Op<T>.Terminate(tid))
  {
  }

  lemma EndSchedules<T>(s: State<T>, tid: int)
    requires Inv(s) && tid in s.threads && s.threads[tid] in s.heap && s.heap[s.threads[tid]].state == RUNNING
    ensures Schedules(s, Op<T>.Terminate(tid)) && s.threads[tid] == s.running
    ensures Entry(s, Op<T>.Terminate(tid)).At(s.running).terminated
  {
    LiveOwner(s, tid);
    assert Placed(s, s.threads[tid]);
  }

  lemma EndEntered<T>(s: State<T>, e: State<T>, t: T)
    requires EntersFrom(s, e) && t == s.running && e.At(t).terminated && t in s.heap
    ensures Entered(e) && e.running == t && t in e.heap && e.heap[t].terminated && e.heap[t].id == s.heap[t].id
    ensures forall u :: u in s.heap ==> (Live(e, u) <==> Live(s, u))
    ensures forall u :: Live(e, u) ==> u in s.heap
  {
  }

  /** Had the id an owner after the switch, that thread would have owned it before. */
  lemma NotLive<T>(s: State<T>, e: State<T>, s': State<T>, tid: int)
    requires Inv(s) && Inv(s') && Entered(e) && tid in s.threads && s.threads[tid] == e.running
    requires s' == Schedule(e) && e.running in e.heap && e.heap[e.running].terminated
    requires e.running in s.heap && e.heap[e.running].id == s.heap[e.running].id == tid
    requires forall u :: u != e.running ==> (Live(s', u) <==> Live(e, u))
    requires Live(s', e.running) <==> !e.heap[e.running].terminated
    ensures tid !in s'.threads
  {
    if tid in s'.threads {
      var u := s'.threads[tid];
      OwnerIsLive(s', tid);
      if u != e.running {
        assert Live(e, u);
        hide Schedule, Switch, Retire, DeletePending, TickUpTo;
        EnteredLive(e);
        ScheduleRecordId(e, u);
        SameOwner(e, u, e.running);
      }
    }
  }

  lemma EnteredLive<T>(e: State<T>)
    requires Entered(e)
    ensures Live(e, e.running)
  {
  }

  lemma ScheduleRecordId<T>(e: State<T>, u: T)
    requires Entered(e) && Live(e, u) && u != e.running
    ensures u in e.heap && u in Schedule(e).heap && Schedule(e).heap[u].id == e.heap[u].id
  {
    hide Schedule, Entered;
    ScheduleRecord(e, u);
  }

  lemma SameOwner<T>(s: State<T>, a: T, b: T)
    requires Live(s, a) && Live(s, b) && s.heap[a].id == s.heap[b].id
    ensures a == b
  {
  }

  lemma RemovedId<T>(s: State<T>, s': State<T>, t: T)
    requires Removed(s, s', t)
    ensures s.heap[t].id !in s'.threads
  {
  }

  lemma TerminateDeletes<T>(s: State<T>, tid: int)
    requires tid in s.threads && s.threads[tid] in s.heap && s.heap[s.threads[tid]].state != RUNNING
    ensures DoTerminate(s, tid).state == DeleteThread(s, s.threads[tid])
  {
    hide DeleteThread, Schedule;
  }

  // ------------------------------------------------------- blocking and resuming

  /** Whether a call makes `t` blocked, makes it unblocked, or leaves it. */
  ghost predicate BlockedAfter<T>(s: State<T>, op: Op<T>, t: T)
    requires t in s.heap
  {
    match op
    case Block(tid) => (tid == s.heap[t].id && tid != 0) || Blocks(s.heap[t].state)
    case Resume(tid) => Blocks(s.heap[t].state) && !(tid == s.heap[t].id && t in s.blocked && tid !in s.termination)
    case _ => Blocks(s.heap[t].state)
  }

  /** Only blocking a thread blocks it, only resuming it unblocks it, and both
      do so whether it sleeps or not. */
  lemma OnlyBlockBlocks<T>(s: State<T>, op: Op<T>, t: T)
    requires Inv(s) && Allowed(s, op) && t in s.heap && Live(s, t)
    requires var s' := Step(s, op).state; t in s'.heap && Live(s', t)
    ensures Blocks(Step(s, op).state.heap[t].state) <==> BlockedAfter(s, op, t)
  {
    hide *;
    if Schedules(s, op) {
      EntryEntered(s, op);
      EntersEntered(s, Entry(s, op));
      EntryBlocked(s, op, t);
      ScheduleBlocks(Entry(s, op), t);
    } else {
      QuietBlocks(s, op, t);
    }
  }

  lemma ScheduleBlocks<T>(e: State<T>, t: T)
    requires Entered(e) && t in e.heap && Live(e, t)
    requires t in Schedule(e).heap && Live(Schedule(e), t)
    ensures Blocks(Schedule(e).heap[t].state) <==> Blocks(e.heap[t].state)
  {
    hide *;
    if Blocks(e.heap[t].state) {
      StillBlocked(e, t);
    }
    if Blocks(Schedule(e).heap[t].state) {
      WasBlocked(e, t);
    }
  }

  lemma EntryBlocked<T>(s: State<T>, op: Op<T>, t: T)
    requires Inv(s) && Allowed(s, op) && Schedules(s, op) && Live(s, t) && EntersFrom(s, Entry(s, op))
    ensures var e := Entry(s, op);
            t in s.heap && t in e.heap && Live(e, t) && (Blocks(e.heap[t].state) <==> BlockedAfter(s, op, t))
  {
    hide Inv, Core, Live, Entered;
    RunningPlaced(s);
    LiveAllocated(s, t);
    if op.Terminate? || op.Block? {
      RunsAlone(s, op);
      LiveAllocated(s, s.running);
    }
  }

  lemma QuietBlocks<T>(s: State<T>, op: Op<T>, t: T)
    requires Inv(s) && Allowed(s, op) && !Schedules(s, op) && Live(s, t) && t in s.heap
    requires t in Step(s, op).state.heap
    ensures Blocks(Step(s, op).state.heap[t].state) <==> BlockedAfter(s, op, t)
  {
    hide Inv, Core, Live, Schedule, FreeTid, IndexOf, Without, DeleteThread, Removed;
    RunningPlaced(s);
    LiveAllocated(s, t);
    match op
    case Terminate(tid) =>
      if tid in s.threads && s.threads[tid] != t {
        LiveOwner(s, tid);
        LiveAllocated(s, s.threads[tid]);
        NotEnded(s, s.threads[tid]);
        DeleteLive(s, s.threads[tid]);
        RemovedSpares(s, DeleteThread(s, s.threads[tid]), s.threads[tid], t);
      } else if tid in s.threads {
        LiveOwner(s, tid);
        NotEnded(s, t);
        DeleteLive(s, t);
        RemovedAway(s, DeleteThread(s, t), t);
      }
    case Block(tid) =>
      if tid in s.threads {
        LiveOwner(s, tid);
      }
    case Resume(tid) =>
      ResumeBlocks(s, tid, t);
    case _ =>
  }

  lemma ResumeBlocks<T>(s: State<T>, tid: int, t: T)
    requires Core(s) && Live(s, t) && t in s.heap
    ensures var s' := DoResume(s, tid).state;
            t in s'.heap && (Blocks(s'.heap[t].state) <==> BlockedAfter(s, Op<T>.Resume(tid), t))
  {
    hide Core, Live, IndexOf;
    LiveAllocated(s, t);
    BlockedBlocks(s);
    if tid in s.threads {
      LiveOwner(s, tid);
      EraseLive(s, s.threads[tid]);
      var i := IndexOf(s.heap, s.blocked, tid);
      if i < |s.blocked| {
        assert s.blocked[i] in s.blocked;
      }
    }
  }

  lemma BlockedBlocks<T>(s: State<T>)
    requires Core(s)
    ensures forall t :: t in s.blocked ==> t in s.heap && Blocks(s.heap[t].state)
  {
  }

  lemma RemovedAway<T>(s: State<T>, s': State<T>, t: T)
    requires Removed(s, s', t)
    ensures t !in s'.heap
  {
  }

  /** Blocking a thread that is already blocked has no effect, and neither has
      resuming one that is not; neither call fails. */
  lemma RepeatsHaveNoEffect<T>(s: State<T>, tid: int)
    requires Inv(s) && tid in s.threads && s.threads[tid] in s.heap
    ensures tid != 0 && Blocks(s.heap[s.threads[tid]].state) ==> DoBlock(s, tid) == Outcome(s, 0)
    ensures tid !in s.termination && !Blocks(s.heap[s.threads[tid]].state) ==> DoResume(s, tid) == Outcome(s, 0)
  {
    hide Inv, Core, Schedule, IndexOf, Without;
    RunningPlaced(s);
    LiveOwner(s, tid);
    EraseLive(s, s.threads[tid]);
    BlockedBlocks(s);
    var i := IndexOf(s.heap, s.blocked, tid);
    if i < |s.blocked| {
      assert s.blocked[i] in s.blocked;
    }
  }

  // --------------------------------------------------- who exists, who is charged

  /** A step ends the threads it names and no others, and the only thread that
      can be new is the one spawned. */
  lemma OnlyNamedThreadsEnd<T>(s: State<T>, op: Op<T>, t: T)
    requires Inv(s) && Allowed(s, op)
    ensures Live(Step(s, op).state, t) <==>
              || (t in s.heap && Live(s, t) && op != Terminate(s.heap[t].id))
              || (op == Spawn(t) && Step(s, op).result != -1)
  {
    hide *;
    if Schedules(s, op) {
      EntryEntered(s, op);
      EntersEntered(s, Entry(s, op));
      ScheduleInv(Entry(s, op));
      EntryEnds(s, op, t);
    } else {
      QuietLives(s, op, t);
    }
  }

  lemma EntryEnds<T>(s: State<T>, op: Op<T>, t: T)
    requires Inv(s) && Allowed(s, op) && Schedules(s, op) && EntersFrom(s, Entry(s, op))
    ensures var e := Entry(s, op);
            && e.running in e.heap && e.running == s.running && !op.Spawn?
            && (Live(e, t) ==> t in s.heap && Live(s, t)) && (t in s.heap && Live(s, t) ==> Live(e, t))
            && (e.heap[e.running].terminated <==> op.Terminate?)
            && (t in s.heap && Live(s, t) && op.Terminate? ==> (op.tid == s.heap[t].id <==> t == s.running))
            && Live(e, e.running)
  {
    hide Core, Schedule;
    RunningPlaced(s);
    if op.Terminate? || op.Block? {
      RunsAlone(s, op);
    }
    EnteredLive(Entry(s, op));
  }

  lemma QuietLives<T>(s: State<T>, op: Op<T>, t: T)
    requires Inv(s) && Allowed(s, op) && !Schedules(s, op)
    ensures Live(Step(s, op).state, t) <==>
              || (t in s.heap && Live(s, t) && op != Terminate(s.heap[t].id))
              || (op == Spawn(t) && Step(s, op).result != -1)
  {
    hide Inv, Core, Schedule, FreeTid, IndexOf, Without, DeleteThread, Removed;
    RunningPlaced(s);
    match op
    case Spawn(u) => SpawnLives(s, u, t);
    case Terminate(tid) => TerminateLives(s, tid, t);
    case Block(tid) =>
      if tid in s.threads {
        LiveOwner(s, tid);
      }
    case Resume(tid) =>
      if tid in s.threads {
        LiveOwner(s, tid);
        EraseLive(s, s.threads[tid]);
      }
    case _ =>
  }

  lemma SpawnLives<T>(s: State<T>, u: T, t: T)
    requires Inv(s) && u !in s.heap
    ensures Live(DoSpawn(s, u).state, t) <==> Live(s, t) || (t == u && DoSpawn(s, u).result != -1)
    ensures Live(s, t) ==> t in s.heap
  {
    hide Inv, Core, FreeTid, Live;
    InvCore(s);
    ThreadsCounted(s);
    if Live(s, t) {
      LiveAllocated(s, t);
    }
    if s.count < MAX_THREAD_NUM {
      FreeTidFound(s.threads);
      SpawnLive(s, DoSpawn(s, u).state, u, FreeTid(s.threads, 0));
    }
  }

  lemma TerminateLives<T>(s: State<T>, tid: int, t: T)
    requires Inv(s) && tid != 0 && (tid in s.threads ==> s.At(s.threads[tid]).state != RUNNING)
    ensures Live(DoTerminate(s, tid).state, t) <==> t in s.heap && Live(s, t) && tid != s.heap[t].id
  {
    hide Inv, Core, Schedule, DeleteThread, Removed, Live;
    InvCore(s);
    if Live(s, t) {
      LiveAllocated(s, t);
    }
    if tid in s.threads {
      LiveOwner(s, tid);
      NotEnded(s, s.threads[tid]);
      DeleteLive(s, s.threads[tid]);
      RemovedLive(s, DeleteThread(s, s.threads[tid]), s.threads[tid], t);
    }
  }

  /** An invocation charges its quantum to the thread it lets run; no other step
      charges anyone. Ids never change. */
  lemma ChargesTheRunner<T>(s: State<T>, op: Op<T>, t: T)
    requires Inv(s) && Allowed(s, op) && t in s.heap && t in Step(s, op).state.heap
    ensures var r, r' := s.heap[t], Step(s, op).state.heap[t];
            && r'.id == r.id
            && r'.quantum == r.quantum + if Schedules(s, op) && t == Step(s, op).state.running then 1 else 0
  {
    hide *;
    if Schedules(s, op) {
      EntryEntered(s, op);
      EntrySame(s, Entry(s, op), t);
      ScheduleCharges(Entry(s, op), t);
    } else {
      QuietCharges(s, op, t);
    }
  }

  lemma EntrySame<T>(s: State<T>, e: State<T>, t: T)
    requires EntersFrom(s, e) && t in s.heap
    ensures Entered(e) && t in e.heap && e.heap[t].id == s.heap[t].id && e.heap[t].quantum == s.heap[t].quantum
  {
  }

  lemma ScheduleCharges<T>(s: State<T>, t: T)
    requires Entered(s) && t in s.heap && t in Schedule(s).heap
    ensures var r, r' := s.heap[t], Schedule(s).heap[t];
            r'.id == r.id && r'.quantum == r.quantum + if t == Schedule(s).running then 1 else 0
  {
    hide *;
    var s1 := TickUpTo(s, MAX_THREAD_NUM);
    var s2 := DeletePending(s1);
    var s3 := Retire(s2);
    TickCore(s, MAX_THREAD_NUM);
    WokenRunner(s, s1);
    WokenIs(s, s1, t);
    WokenQuantum(s, t);
    PendingGone(s1);
    RetireCore(s2);
    LiveAllocated(s2, s2.running);
    ReadyAllocated(s3);
    DeleteSame(s1, t);
    RunnerLeft(s3);
    SwitchCharges(s3, t);
    ScheduleIs(s);
  }

  lemma ReadyAllocated<T>(s: State<T>)
    requires Core(s)
    ensures forall t :: t in s.ready ==> t in s.heap
  {
  }

  lemma WokenQuantum<T>(s: State<T>, t: T)
    requires t in s.heap
    ensures Woken(s, t, MAX_THREAD_NUM).quantum == s.heap[t].quantum && Woken(s, t, MAX_THREAD_NUM).id == s.heap[t].id
  {
  }

  lemma DeleteSame<T>(s: State<T>, t: T)
    requires Core(s) && t in s.heap
    ensures t in DeletePending(s).heap ==> DeletePending(s).heap[t] == s.heap[t]
  {
    hide Core, DeletePending;
    DeletePendingIs(s);
    if s.termination != map[] {
      var p :| Freed(s, DeletePending(s), p);
    }
  }

  lemma SwitchCharges<T>(s: State<T>, t: T)
    requires s.running in s.heap && (!KeepsTurn(s.heap[s.running]) ==> s.ready != [])
    requires forall u :: u in s.ready ==> u in s.heap
    ensures t in Switch(s).heap <==> t in s.heap
    ensures t in s.heap ==>
              && Switch(s).heap[t].id == s.heap[t].id
              && Switch(s).heap[t].quantum == s.heap[t].quantum + if t == Switch(s).running then 1 else 0
  {
    hide Switch, KeepsTurn;
    SwitchIs(s);
    if s.ready != [] {
      assert s.ready[0] in s.ready;
    }
  }

  lemma QuietCharges<T>(s: State<T>, op: Op<T>, t: T)
    requires Inv(s) && Allowed(s, op) && !Schedules(s, op) && t in s.heap && t in Step(s, op).state.heap
    ensures Step(s, op).state.heap[t].id == s.heap[t].id && Step(s, op).state.heap[t].quantum == s.heap[t].quantum
  {
    hide Inv, Core, Schedule, FreeTid, IndexOf, Without, DeleteThread, Removed;
    RunningPlaced(s);
    if op.Terminate? && op.tid in s.threads {
      var u := s.threads[op.tid];
      LiveOwner(s, op.tid);
      NotEnded(s, u);
      DeleteLive(s, u);
      RemovedLive(s, DeleteThread(s, u), u, t);
    }
  }

  // --------------------------------------------------------------- the thread limit

  lemma {:induction false} SpawnedIds<T>(main: T, states: seq<State<T>>, ops: seq<Op<T>>, n: nat)
    requires Run(states, ops) && states[0] == Init(main) && n <= |ops|
    requires forall k :: 0 <= k < n ==> ops[k].Spawn?
    ensures states[n].count == if n < 99 then n + 1 else 100
    ensures forall i :: i in states[n].threads <==> 0 <= i < (if n < 99 then n + 1 else 100)
  {
    hide Inv, FreeTid, Schedule, DoTerminate, DoBlock, DoResume, DoSleep;
    if n > 0 {
      SpawnedIds(main, states, ops, n - 1);
      NextId(states[n - 1], if n < 100 then n else 100);
    }
  }

  lemma NextId<T>(s: State<T>, n: nat)
    requires n <= 100 && forall i :: i in s.threads <==> 0 <= i < n
    ensures FreeTid(s.threads, 0) == n
  {
    hide FreeTid;
    assert n !in s.threads;
  }

  /** From the start of the library, 99 spawns in a row return the ids 1 to 99;
      any further one returns -1 and changes nothing. */
  lemma SpawnsUpToTheLimit<T>(main: T, states: seq<State<T>>, ops: seq<Op<T>>, n: nat)
    requires Run(states, ops) && states[0] == Init(main) && n < |ops|
    requires forall k :: 0 <= k <= n ==> ops[k].Spawn?
    ensures n < 99 ==> Step(states[n], ops[n]).result == n + 1
    ensures n >= 99 ==> Step(states[n], ops[n]).result == -1 && states[n + 1] == states[n]
  {
    hide Inv, FreeTid, Schedule, DoTerminate, DoBlock, DoResume, DoSleep;
    SpawnedIds(main, states, ops, n);
    NextId(states[n], if n < 99 then n + 1 else 100);
  }
}

/** The thread library itself: thread objects, queues and maps updated in
    place. Each method is the state machine's step on the abstract state. */
module Uthreads {
  import opened SchedulerSpec
  import opened SchedulerInvariant
  import opened SchedulerRuns
  import opened SchedulerBlocking

  class Thread {
    var state: Status
    var id: int
    var quantum: nat
    var sleepQuantum: int
    var terminated: bool

    constructor (state: Status, id: int, quantum: nat)
      ensures Record() == Rec(state, id, quantum, 0, false)
    {
      this.state, this.id, this.quantum, this.sleepQuantum, this.terminated := state, id, quantum, 0, false;
    }

    function Record(): Rec
      reads this
    {
      Rec(state, id, quantum, sleepQuantum, terminated)
    }
  }

  /** The records of a set of thread objects. */
  ghost function HeapOf(objects: set<Thread>): map<Thread, Rec>
    reads objects
  {
    map t | t in objects :: t.Record()
  }

  lemma HeapAt(objects: set<Thread>, t: Thread)
    ensures t in HeapOf(objects) <==> t in objects
    ensures t in objects ==> HeapOf(objects)[t] == t.Record()
    ensures t.Record() == Rec(t.state, t.id, t.quantum, t.sleepQuantum, t.terminated)
  {
  }

  lemma HeapWithout(objects: set<Thread>, t: Thread)
    ensures HeapOf(objects - {t}) == HeapOf(objects) - {t}
  {
  }

  class Scheduler {
    var threads: map<int, Thread>
    var readyQueue: seq<Thread>
    var blockedThreads: seq<Thread>
    var sleepingThreads: map<int, Thread>
    var termination: map<int, Thread>
    var runningThread: Thread
    var quantumsNumber: nat
    var threadsCurNumber: int
    /** The thread objects not yet freed, and the quanta of the freed ones. */
    ghost var objects: set<Thread>
    ghost var retired: nat

    ghost function Heap(): (h: map<Thread, Rec>)
      reads this`objects, objects
      ensures h == HeapOf(objects)
    {
      HeapOf(objects)
    }

    ghost function Abs(): (s: State<Thread>)
      reads this, objects
      ensures s.heap == Heap() && s.threads == threads && s.ready == readyQueue && s.blocked == blockedThreads
      ensures s.sleeping == sleepingThreads && s.termination == termination && s.running == runningThread
      ensures s.total == quantumsNumber && s.count == threadsCurNumber && s.retired == retired
    {
      State(Heap(), threads, readyQueue, blockedThreads, sleepingThreads, termination,
            runningThread, quantumsNumber, threadsCurNumber, retired)
    }

    ghost predicate Valid()
      reads this, objects
      ensures Valid() <==> Inv(Abs())
    {
      Inv(Abs())
    }

    /** `uthread_init`: the main thread runs its first quantum. */
    constructor ()
      ensures Valid() && fresh(objects) && Abs() == Init(runningThread)
    {
      var main := new Thread(RUNNING, 0, 1);
      threads, readyQueue, blockedThreads := map[0 := main], [], [];
      sleepingThreads, termination := map[], map[];
      runningThread, quantumsNumber, threadsCurNumber := main, 1, 1;
      objects, retired := {main}, 0;
      new;
      assert Heap() == map[runningThread := Rec(RUNNING, 0, 1, 0, false)];
      InitInv(runningThread);
    }

    /** Takes a thread out of the structures that hold it and frees it. */
    method DeleteThread(toDelete: Thread)
      requires toDelete in objects
      requires forall t :: t in blockedThreads || t in readyQueue ==> t in objects
      modifies this
      ensures Abs() == SchedulerSpec.DeleteThread(old(Abs()), toDelete)
      ensures objects <= old(objects)
    {
      hide EraseFirst, Without, IndexOf, HeapOf;
      HeapAt(objects, toDelete);
      EraseBlocked(toDelete.id);
      if toDelete.state == SLEEP || toDelete.state == SLEEP_BLOCK {
        sleepingThreads := sleepingThreads - {toDelete.id};
      }
      if toDelete.state == READY {
        DropReady(toDelete.id);
      }
      if toDelete.id != 0 {
        Release(toDelete);
      }
    }

    /** Frees the object of a thread other than the main one. */
    method Release(toDelete: Thread)
      requires toDelete in objects
      modifies this`threads, this`threadsCurNumber, this`objects, this`retired
      ensures Heap() == old(Heap()) - {toDelete} && retired == old(retired) + toDelete.quantum
      ensures threads == if toDelete.terminated then old(threads) else old(threads) - {toDelete.id}
      ensures threadsCurNumber == if toDelete.terminated then old(threadsCurNumber) else old(threadsCurNumber) - 1
      ensures objects == old(objects) - {toDelete}
    {
      HeapWithout(objects, toDelete);
      if !toDelete.terminated {
        threads := threads - {toDelete.id};
        threadsCurNumber := threadsCurNumber - 1;
      }
      retired := retired + toDelete.quantum;
      objects := objects - {toDelete};
    }

    method EraseBlocked(tid: int)
      requires forall t :: t in blockedThreads ==> t in objects
      modifies this`blockedThreads
      ensures blockedThreads == EraseFirst(Heap(), old(blockedThreads), tid)
    {
      var counter := 0;
      while counter < |blockedThreads|
        invariant 0 <= counter <= |blockedThreads| && blockedThreads == old(blockedThreads)
        invariant forall k :: 0 <= k < counter ==> blockedThreads[k].id != tid
      {
        if blockedThreads[counter].id == tid {
          blockedThreads := blockedThreads[..counter] + blockedThreads[counter + 1..];
          return;
        }
        counter := counter + 1;
      }
    }

    method DropReady(tid: int)
      requires forall t :: t in readyQueue ==> t in objects
      modifies this`readyQueue
      ensures readyQueue == Without(Heap(), old(readyQueue), tid)
    {
      hide Without, HeapOf;
      var kept: seq<Thread> := [];
      HeapIds(objects);
      assert [] + Without(Heap(), readyQueue, tid) == Without(Heap(), readyQueue, tid);
      while readyQueue != []
        invariant forall t :: t in readyQueue ==> t in objects
        invariant kept + Without(Heap(), readyQueue, tid) == Without(Heap(), old(readyQueue), tid)
        decreases |readyQueue|
      {
        var current := readyQueue[0];
        DrainOne(Heap(), readyQueue, tid, kept);
        readyQueue := readyQueue[1..];
        if current.id != tid {
          kept := kept + [current];
        }
      }
      DrainNone(Heap(), tid);
      Refill(kept);
    }

    /** Puts the threads of a temporary queue back, in order. */
    method Refill(kept: seq<Thread>)
      modifies this`readyQueue
      ensures readyQueue == old(readyQueue) + kept
    {
      var rest := kept;
      while rest != []
        invariant readyQueue + rest == old(readyQueue) + kept
        decreases |rest|
      {
        assert (readyQueue + [rest[0]]) + rest[1..] == readyQueue + rest;
        readyQueue := readyQueue + [rest[0]];
        rest := rest[1..];
      }
    }

    // ------------------------------------------------------------ schedule_handler

    /** One quantum less to sleep for `t`; if none is left it wakes. */
    method TickThread(t: Thread) returns (woke: bool)
      requires t in objects
      modifies this`readyQueue, t`state, t`sleepQuantum
      ensures woke <==> old(t.sleepQuantum) == 1
      ensures var r := old(t.Record());
              Heap() == old(Heap())[t := r.(sleep := r.sleep - 1,
                          state := if !woke then r.state else if r.state == SLEEP_BLOCK then BLOCKED else READY)]
      ensures readyQueue == if woke && old(t.state) != SLEEP_BLOCK then old(readyQueue) + [t] else old(readyQueue)
    {
      t.sleepQuantum := t.sleepQuantum - 1;
      woke := t.sleepQuantum == 0;
      if woke {
        if t.state == SLEEP_BLOCK {
          t.state := BLOCKED;
        } else {
          t.state := READY;
          readyQueue := readyQueue + [t];
        }
      }
    }

    /** Ticks the sleepers in the order of their ids and wakes those that are due. */
    method WakeSleepers()
      requires Core(Abs())
      modifies this`readyQueue, this`sleepingThreads, objects
      ensures Abs() == TickUpTo(old(Abs()), MAX_THREAD_NUM)
      ensures objects == old(objects)
    {
      hide HeapOf, Core, Maps, Queues, TickUpTo, TickOne, SetOf;
      ghost var s := Abs();
      SleepersAllocated(s);
      HeapIs(objects);
      UpTo(s, 0);
      NoIds(sleepingThreads);
      var wakingUp: seq<int> := [];
      for i := 0 to MAX_THREAD_NUM
        invariant Abs().(sleeping := s.sleeping - SetOf(wakingUp)) == TickUpTo(s, i)
        invariant sleepingThreads == s.sleeping && objects == old(objects)
        invariant forall k :: k in SetOf(wakingUp) ==> k < i
      {
        UpTo(s, i);
        ghost var a := TickUpTo(s, i);
        if i in sleepingThreads {
          var t := sleepingThreads[i];
          HeapAt(objects, t);
          TickOneAt(a, i, t);
          var woke := TickThread(t);
          if woke {
            OneMoreId(wakingUp, i, sleepingThreads);
            wakingUp := wakingUp + [i];
          }
        } else {
          TickOneAt(a, i, runningThread);
        }
      }
      EraseSleepers(wakingUp);
    }

    method EraseSleepers(ids: seq<int>)
      modifies this`sleepingThreads
      ensures sleepingThreads == old(sleepingThreads) - SetOf(ids)
    {
      hide SetOf;
      NoIds(sleepingThreads);
      assert ids[..0] == [];
      for j := 0 to |ids|
        invariant sleepingThreads == old(sleepingThreads) - SetOf(ids[..j])
      {
        OneMoreId(ids[..j], ids[j], old(sleepingThreads));
        assert ids[..j + 1] == ids[..j] + [ids[j]];
        sleepingThreads := sleepingThreads - {ids[j]};
      }
      assert ids[..|ids|] == ids;
    }

    /** Frees the threads that ended before the last switch. */
    method DeletePendingThreads()
      requires Core(Abs())
      modifies this
      ensures Abs() == DeletePending(old(Abs()))
      ensures objects <= old(objects)
    {
      hide HeapOf, Core, DeleteUpTo, SchedulerSpec.DeleteThread;
      ghost var s := Abs();
      DeleteSteps(s, 0);
      for i := 0 to MAX_THREAD_NUM
        invariant Abs() == DeleteUpTo(s, i) && objects <= old(objects)
        invariant termination == s.termination
      {
        DeleteSteps(s, i);
        DeleteSteps(s, i + 1);
        if i in termination {
          PendingIsSafe(s, i);
          HeapIs(objects);
          DeleteThread(termination[i]);
        }
      }
      termination := map[];
      DeleteSteps(s, MAX_THREAD_NUM);
    }

    /** A running thread that ended is left for the next invocation to free. */
    method RetireRunning()
      requires runningThread in objects && runningThread.id in threads
      modifies this`termination, this`threads, this`threadsCurNumber
      ensures Abs() == Retire(old(Abs()))
    {
      HeapAt(objects, runningThread);
      if runningThread.terminated {
        var terminatedTid := runningThread.id;
        termination := termination[terminatedTid := threads[terminatedTid]];
        threads := threads - {terminatedTid};
        threadsCurNumber := threadsCurNumber - 1;
      }
    }

    /** Requeues the running thread if it keeps its turn to run, and starts the
        quantum of the thread at the front. */
    method SwitchThread()
      requires runningThread in objects && forall t :: t in readyQueue ==> t in objects
      requires KeepsTurn(runningThread.Record()) ==>
                 runningThread.id in threads && threads[runningThread.id] == runningThread
      requires !KeepsTurn(runningThread.Record()) ==> readyQueue != []
      modifies this`readyQueue, this`runningThread, this`quantumsNumber, objects
      ensures Abs() == Switch(old(Abs())) && objects == old(objects)
    {
      hide HeapOf;
      HeapAt(objects, runningThread);
      if !runningThread.terminated && runningThread.state != SLEEP
         && runningThread.state != BLOCKED && runningThread.state != SLEEP_BLOCK {
        if readyQueue != [] {
          SetState(runningThread, READY);
          readyQueue := readyQueue + [threads[runningThread.id]];
        } else {
          StartRunning();
          return;
        }
      }
      runningThread := readyQueue[0];
      readyQueue := readyQueue[1..];
      HeapAt(objects, runningThread);
      StartRunning();
    }

    method SetState(t: Thread, st: Status)
      requires t in objects
      modifies t`state
      ensures Heap() == old(Heap())[t := old(t.Record()).(state := st)]
      ensures t.Record() == old(t.Record()).(state := st)
    {
      t.state := st;
    }

    method StartRunning()
      requires runningThread in objects
      modifies this`quantumsNumber, runningThread`quantum, runningThread`state
      ensures Abs() == StartQuantum(old(Abs()))
    {
      runningThread.quantum := runningThread.quantum + 1;
      runningThread.state := RUNNING;
      quantumsNumber := quantumsNumber + 1;
      assert Heap() == old(Heap())[runningThread := runningThread.Record()];
    }

    /** The timer's signal handler, also called by a thread that gives up its turn. */
    method ScheduleHandler()
      requires Entered(Abs())
      modifies this, objects
      ensures Abs() == Schedule(old(Abs())) && Valid()
      ensures objects <= old(objects)
    {
      hide *;
      ghost var s := Abs();
      EnteredCore(s);
      TickCore(s, MAX_THREAD_NUM);
      WakeSleepers();
      WokenRunner(s, Abs());
      PendingGone(Abs());
      DeletePendingThreads();
      ghost var s2 := Abs();
      RunnerFacts(s2);
      HeapIs(objects);
      HeapAt(objects, runningThread);
      RetireCore(s2);
      RetireRunning();
      ghost var s3 := Abs();
      HeapAt(objects, runningThread);
      SwitchFacts(s3);
      SwitchThread();
      ScheduleIs(s);
      ScheduleInv(s);
    }

    // ------------------------------------------------------------------- the calls

    /** Gives a new thread the smallest free id. The loop's end is not reached. */
    method AddThread(toAdd: Thread)
      requires |threads| < MAX_THREAD_NUM
      modifies this`threads, this`threadsCurNumber, toAdd`id
      ensures toAdd.id == FreeTid(old(threads), 0)
      ensures threads == old(threads)[toAdd.id := toAdd] && threadsCurNumber == old(threadsCurNumber) + 1
    {
      hide FreeTid;
      for i := 0 to MAX_THREAD_NUM
        invariant threads == old(threads)
        invariant forall k: int :: 0 <= k < i ==> k in threads
      {
        if i !in threads {
          FirstFree(threads, 0, i);
          toAdd.id := i;
          threads := threads[i := toAdd];
          threadsCurNumber := threadsCurNumber + 1;
          return;
        }
      }
      FreeTidFound(threads);
      assert false;
    }

    method UthreadSpawn() returns (tid: int)
      requires Valid()
      modifies this
      ensures Valid()
      ensures old(threadsCurNumber) >= 100 ==> tid == -1 && Abs() == old(Abs())
      ensures old(threadsCurNumber) < 100 ==>
        tid in threads && fresh(threads[tid]) && objects == old(objects) + {threads[tid]}
        && Outcome(Abs(), tid) == Step(old(Abs()), Spawn(threads[tid]))
    {
      hide *;
      LimitIs();
      ghost var s := Abs();
      CountFacts(s);
      if threadsCurNumber >= MAX_THREAD_NUM {
        return -1;
      }
      var newThread := new Thread(READY, -1, 0);
      assert newThread !in objects;
      HeapIs(objects);
      Register(newThread);
      SpawnIs(s, newThread);
      SpawnKeepsInv(s, newThread);
      tid := newThread.id;
    }

    method Register(newThread: Thread)
      requires |threads| < MAX_THREAD_NUM && newThread !in objects
      requires newThread.Record() == Rec(READY, -1, 0, 0, false)
      modifies this`threads, this`threadsCurNumber, this`objects, this`readyQueue, newThread`id
      ensures objects == old(objects) + {newThread} && newThread.id == FreeTid(old(threads), 0)
      ensures Heap() == old(Heap())[newThread := Rec(READY, newThread.id, 0, 0, false)]
      ensures threads == old(threads)[newThread.id := newThread] && threadsCurNumber == old(threadsCurNumber) + 1
      ensures readyQueue == old(readyQueue) + [newThread]
    {
      hide FreeTid;
      AddThread(newThread);
      HeapGrows(objects, newThread);
      objects := objects + {newThread};
      readyQueue := readyQueue + [newThread];
    }

    /** Ending the main thread ends the process, so `tid` is another thread. */
    method UthreadTerminate(tid: int) returns (r: int)
      requires Valid() && tid != 0
      modifies this, objects
      ensures Valid() && objects <= old(objects)
      ensures Outcome(Abs(), r) == Step(old(Abs()), Terminate(tid))
    {
      hide *;
      ghost var s := Abs();
      AllowedCall(s, Terminate(tid));
      StepInv(s, Terminate(tid));
      TerminateIs(s, tid);
      if tid !in threads {
        return -1;
      }
      var toTerminate := threads[tid];
      OwnerFacts(s, tid);
      HeapIs(objects);
      HeapAt(objects, toTerminate);
      if toTerminate.state == RUNNING {
        TerminateEntered(s);
        MarkTerminated(toTerminate);
        ScheduleHandler();
        return 0;
      }
      QueuesAllocated(s);
      DeleteThread(toTerminate);
      return 0;
    }

    method MarkTerminated(t: Thread)
      requires t in objects
      modifies t`terminated
      ensures Abs() == old(Abs()).Put(t, old(Heap()[t]).(terminated := true))
    {
      t.terminated := true;
      assert Heap() == old(Heap())[t := t.Record()];
    }

    method UthreadBlock(tid: int) returns (r: int)
      requires Valid()
      modifies this, objects
      ensures Valid() && objects <= old(objects)
      ensures Outcome(Abs(), r) == Step(old(Abs()), Block(tid))
    {
      hide *;
      ghost var s := Abs();
      AllowedCall(s, Block(tid));
      StepInv(s, Block(tid));
      BlockIs(s, tid);
      if tid !in threads || tid == 0 {
        return -1;
      }
      var toBlock := threads[tid];
      OwnerFacts(s, tid);
      HeapIs(objects);
      HeapAt(objects, toBlock);
      if toBlock.state == RUNNING {
        BlockRunning(s);
        SetState(toBlock, BLOCKED);
        blockedThreads := blockedThreads + [toBlock];
        PutIs(s, toBlock, s.heap[toBlock].(state := BLOCKED));
        ScheduleHandler();
        return 0;
      }
      if toBlock.state == SLEEP {
        SetState(toBlock, SLEEP_BLOCK);
        blockedThreads := blockedThreads + [toBlock];
        PutIs(s, toBlock, s.heap[toBlock].(state := SLEEP_BLOCK));
      } else if toBlock.state == READY {
        QueuesAllocated(s);
        HeapIds(objects);
        SetState(toBlock, BLOCKED);
        FilterById(s.heap, Heap(), s.ready, tid);
        MoveToBlocked(tid, toBlock);
        PutIs(s, toBlock, s.heap[toBlock].(state := BLOCKED));
      }
      return 0;
    }

    /** Drains the ready queue through a temporary one, moving thread `tid` to
        the blocked list. */
    method MoveToBlocked(tid: int, ghost t: Thread)
      requires forall u :: u in readyQueue ==> u in objects
      requires t in readyQueue && t.id == tid && NoDup(readyQueue)
      requires forall u :: u in readyQueue && u.id == tid ==> u == t
      modifies this`readyQueue, this`blockedThreads
      ensures readyQueue == Without(Heap(), old(readyQueue), tid)
      ensures blockedThreads == old(blockedThreads) + [t]
    {
      hide Without, HeapOf, NoDup;
      var temp: seq<Thread> := [];
      HeapIds(objects);
      assert [] + Without(Heap(), readyQueue, tid) == Without(Heap(), readyQueue, tid);
      while readyQueue != []
        invariant forall u :: u in readyQueue ==> u in objects && (u.id == tid ==> u == t)
        invariant NoDup(readyQueue)
        invariant blockedThreads == if t in readyQueue then old(blockedThreads) else old(blockedThreads) + [t]
        invariant temp + Without(Heap(), readyQueue, tid) == Without(Heap(), old(readyQueue), tid)
        decreases |readyQueue|
      {
        var current := readyQueue[0];
        DrainOne(Heap(), readyQueue, tid, temp);
        FrontLeaves(readyQueue);
        readyQueue := readyQueue[1..];
        if current.id != tid {
          temp := temp + [current];
        } else {
          blockedThreads := blockedThreads + [current];
        }
      }
      DrainNone(Heap(), tid);
      Refill(temp);
    }

    method UthreadResume(tid: int) returns (r: int)
      requires Valid()
      modifies this, objects
      ensures Valid() && objects <= old(objects)
      ensures Outcome(Abs(), r) == Step(old(Abs()), Resume(tid))
    {
      hide *;
      ghost var s := Abs();
      AllowedCall(s, Resume(tid));
      StepInv(s, Resume(tid));
      ResumeIs(s, tid);
      if tid in termination {
        return -1;
      }
      if tid !in threads {
        return -1;
      }
      QueuesAllocated(s);
      HeapIs(objects);
      var i := FindBlocked(tid);
      if i < |blockedThreads| {
        var t := blockedThreads[i];
        BlockedOwner(s, tid, i);
        HeapAt(objects, t);
        if threads[tid].state == SLEEP_BLOCK {
          SetState(t, SLEEP);
          PutIs(s, t, s.heap[t].(state := SLEEP));
        } else {
          SetState(t, READY);
          PutIs(s, t, s.heap[t].(state := READY));
          readyQueue := readyQueue + [t];
        }
        blockedThreads := blockedThreads[..i] + blockedThreads[i + 1..];
      }
      return 0;
    }

    method FindBlocked(tid: int) returns (i: nat)
      requires forall t :: t in blockedThreads ==> t in objects
      ensures i == IndexOf(Heap(), blockedThreads, tid)
    {
      i := 0;
      while i < |blockedThreads|
        invariant i <= |blockedThreads|
        invariant forall k :: 0 <= k < i ==> blockedThreads[k].id != tid
      {
        if blockedThreads[i].id == tid {
          return;
        }
        i := i + 1;
      }
    }

    method UthreadSleep(numQuantums: int) returns (r: int)
      requires Valid()
      modifies this, objects
      ensures Valid() && objects <= old(objects)
      ensures Outcome(Abs(), r) == Step(old(Abs()), Op<Thread>.Sleep(numQuantums))
    {
      hide *;
      ghost var s := Abs();
      RunnerOf(s);
      AllowedCall(s, Op<Thread>.Sleep(numQuantums));
      StepInv(s, Op<Thread>.Sleep(numQuantums));
      SleepIs(s, numQuantums);
      HeapIs(objects);
      HeapAt(objects, runningThread);
      if runningThread.id == 0 {
        return -1;
      }
      if numQuantums <= 0 {
        return -1;
      }
      SleepEntered(s, numQuantums);
      NotYetAsleep(s);
      var id := runningThread.id;
      var uThread := threads[id];
      if id !in sleepingThreads {
        sleepingThreads := sleepingThreads[id := uThread];
      }
      ghost var r1 := s.heap[runningThread].(state := SLEEP, sleep := numQuantums + 1);
      PutIs(s, runningThread, r1);
      PutIs(Abs(), runningThread, r1);
      PutToSleep(numQuantums);
      ScheduleHandler();
      return 0;
    }

    method PutToSleep(numQuantums: int)
      requires runningThread in objects
      modifies runningThread`state, runningThread`sleepQuantum
      ensures Abs() == old(Abs()).Put(runningThread, old(Heap()[runningThread]).(state := SLEEP, sleep := numQuantums + 1))
    {
      runningThread.state := SLEEP;
      runningThread.sleepQuantum := numQuantums + 1;
      assert Heap() == old(Heap())[runningThread := runningThread.Record()];
    }

    /** The timer expires. */
    method TimerTick()
      requires Valid()
      modifies this, objects
      ensures Valid() && objects <= old(objects)
      ensures Abs() == Step(old(Abs()), Op<Thread>.Tick).state
    {
      hide *;
      TickIs(Abs());
      ScheduleHandler();
    }
  }

  function SetOf(ids: seq<int>): set<int> {
    if ids == [] then {} else SetOf(ids[..|ids| - 1]) + {ids[|ids| - 1]}
  }

  lemma NoIds(m: map<int, Thread>)
    ensures SetOf([]) == {} && m - SetOf([]) == m
  {
  }

  lemma OneMoreId(ids: seq<int>, id: int, m: map<int, Thread>)
    ensures SetOf(ids + [id]) == SetOf(ids) + {id}
    ensures m - SetOf(ids + [id]) == (m - SetOf(ids)) - {id}
  {
    assert (ids + [id])[..|ids|] == ids;
  }

  /** `TickOne`, spelled out for the thread it concerns. */
  lemma TickOneAt<T>(s: State<T>, i: nat, t: T)
    requires i in s.sleeping ==> s.sleeping[i] == t && t in s.heap
    ensures i !in s.sleeping ==> TickOne(s, i) == s
    ensures i in s.sleeping ==>
      var r := s.heap[t];
      var woke := r.sleep == 1;
      TickOne(s, i) == s.(
        heap := s.heap[t := r.(sleep := r.sleep - 1,
                  state := if !woke then r.state else if r.state == SLEEP_BLOCK then BLOCKED else READY)],
        sleeping := if woke then s.sleeping - {i} else s.sleeping,
        ready := if woke && r.state != SLEEP_BLOCK then s.ready + [t] else s.ready)
  {
  }

  lemma {:induction false} DeleteKeepsTermination<T>(s: State<T>, n: nat)
    ensures DeleteUpTo(s, n).termination == s.termination
  {
    if n > 0 {
      DeleteKeepsTermination(s, n - 1);
    }
  }

  lemma DeleteSteps<T>(s: State<T>, i: nat)
    ensures DeleteUpTo(s, i).termination == s.termination
    ensures DeleteUpTo(s, 0) == s
    ensures DeleteUpTo(s, i + 1) == if i in s.termination
              then SchedulerSpec.DeleteThread(DeleteUpTo(s, i), s.termination[i]) else DeleteUpTo(s, i)
    ensures DeletePending(s) == DeleteUpTo(s, MAX_THREAD_NUM).(termination := map[])
  {
    hide SchedulerSpec.DeleteThread;
    DeleteKeepsTermination(s, i);
  }

  /** Before its turn nothing was freed, so the pending thread is allocated. */
  lemma PendingIsSafe<T>(s: State<T>, i: nat)
    requires Core(s) && i in s.termination
    ensures DeleteUpTo(s, i) == s && s.termination[i] in s.heap
    ensures forall t :: t in s.blocked || t in s.ready ==> t in s.heap
  {
    hide SchedulerSpec.DeleteThread;
    TerminationKey(s, i);
    DeleteUpToIs(s, i, i);
  }

  lemma RunnerFacts<T>(s: State<T>)
    requires Live(s, s.running)
    ensures s.running in s.heap && s.heap[s.running].id in s.threads && s.threads[s.heap[s.running].id] == s.running
  {
  }

  /** What switching relies on: the queue holds allocated threads, and it is
      not empty when the running thread gives up its turn. */
  lemma SwitchFacts<T>(s: State<T>)
    requires Core(s) && s.running in s.heap
    requires var r := s.heap[s.running];
             if Live(s, s.running)
             then !r.terminated && (r.state == RUNNING || r.state == BLOCKED || r.state == SLEEP)
             else r.terminated
    ensures forall t :: t in s.ready ==> t in s.heap
    ensures KeepsTurn(s.heap[s.running]) ==>
              s.heap[s.running].id in s.threads && s.threads[s.heap[s.running].id] == s.running
    ensures !KeepsTurn(s.heap[s.running]) ==> s.ready != []
  {
    RunnerLeft(s);
    forall t | t in s.ready ensures t in s.heap {
      assert Live(s, t);
    }
  }

  lemma SleepersAllocated<T>(s: State<T>)
    requires Core(s)
    ensures forall k :: k in s.sleeping ==> s.sleeping[k] in s.heap
  {
  }

  lemma HeapIs(objects: set<Thread>)
    ensures HeapOf(objects).Keys == objects
  {
  }

  // ------------------------------------- one fact at a time, for the methods above

  lemma {:induction false} FirstFree<T>(threads: map<int, T>, from: nat, i: nat)
    requires from <= i < MAX_THREAD_NUM && i !in threads && forall k: int :: from <= k < i ==> k in threads
    ensures FreeTid(threads, from) == i
    decreases i - from
  {
    if from < i {
      FirstFree(threads, from + 1, i);
    }
  }

  lemma HeapIds(objects: set<Thread>)
    ensures forall t :: t in objects ==> t in HeapOf(objects) && HeapOf(objects)[t].id == t.id
  {
  }

  lemma HeapGrows(objects: set<Thread>, t: Thread)
    ensures HeapOf(objects + {t}) == HeapOf(objects)[t := t.Record()]
  {
  }

  lemma CountFacts<T>(s: State<T>)
    requires Inv(s)
    ensures s.count == |s.threads|
  {
  }

  lemma AllowedCall<T>(s: State<T>, op: Op<T>)
    requires !op.Spawn? && (op.Terminate? ==> op.tid != 0)
    ensures Allowed(s, op)
  {
  }

  lemma SpawnKeepsInv<T>(s: State<T>, t: T)
    requires Inv(s) && t !in s.heap
    ensures Inv(Step(s, Spawn(t)).state)
  {
    hide Inv, Step;
    StepInv(s, Spawn(t));
  }

  lemma LimitIs()
    ensures MAX_THREAD_NUM == 100
  {
  }

  lemma SpawnIs<T>(s: State<T>, t: T)
    requires Inv(s) && t !in s.heap && s.count < MAX_THREAD_NUM
    ensures Allowed(s, Spawn(t))
    ensures var tid := FreeTid(s.threads, 0);
            Step(s, Spawn(t)) == Outcome(s.(heap := s.heap[t := Rec(READY, tid, 0, 0, false)],
                                            threads := s.threads[tid := t],
                                            count := s.count + 1, ready := s.ready + [t]), tid)
  {
    FreeTidFound(s.threads);
  }

  lemma TerminateIs<T>(s: State<T>, tid: int)
    ensures tid !in s.threads ==> Step(s, Terminate(tid)) == Outcome(s, -1)
    ensures tid in s.threads && s.threads[tid] in s.heap ==>
      var t := s.threads[tid];
      Step(s, Terminate(tid)) ==
        (if s.heap[t].state == RUNNING then Outcome(Schedule(s.Put(t, s.heap[t].(terminated := true))), 0)
         else Outcome(SchedulerSpec.DeleteThread(s, t), 0))
  {
    hide Schedule, SchedulerSpec.DeleteThread;
  }

  lemma BlockIs<T>(s: State<T>, tid: int)
    ensures tid !in s.threads || tid == 0 ==> Step(s, Block(tid)) == Outcome(s, -1)
    ensures tid in s.threads && tid != 0 && s.threads[tid] in s.heap ==>
      var t := s.threads[tid];
      var r := s.heap[t];
      Step(s, Block(tid)) ==
        (match r.state
         case RUNNING => Outcome(Schedule(s.Put(t, r.(state := BLOCKED)).(blocked := s.blocked + [t])), 0)
         case SLEEP => Outcome(s.Put(t, r.(state := SLEEP_BLOCK)).(blocked := s.blocked + [t]), 0)
         case READY => Outcome(s.Put(t, r.(state := BLOCKED)).(blocked := s.blocked + [t],
                                                               ready := Without(s.heap, s.ready, tid)), 0)
         case _ => Outcome(s, 0))
  {
    hide Schedule, Without;
  }

  lemma ResumeIs<T>(s: State<T>, tid: int)
    ensures tid in s.termination || tid !in s.threads ==> Step(s, Resume(tid)) == Outcome(s, -1)
    ensures tid !in s.termination && tid in s.threads && IndexOf(s.heap, s.blocked, tid) == |s.blocked| ==>
              Step(s, Resume(tid)) == Outcome(s, 0)
    ensures tid !in s.termination && tid in s.threads && s.threads[tid] in s.heap
            && IndexOf(s.heap, s.blocked, tid) < |s.blocked| ==>
      var i := IndexOf(s.heap, s.blocked, tid);
      var t := s.blocked[i];
      var blocked := s.blocked[..i] + s.blocked[i + 1..];
      Step(s, Resume(tid)) ==
        (if s.heap[s.threads[tid]].state == SLEEP_BLOCK
         then Outcome(s.Put(t, s.heap[t].(state := SLEEP)).(blocked := blocked), 0)
         else Outcome(s.Put(t, s.heap[t].(state := READY)).(ready := s.ready + [t], blocked := blocked), 0))
  {
    hide IndexOf;
  }

  lemma SleepIs<T>(s: State<T>, quanta: int)
    requires s.running in s.heap
    ensures var r := s.heap[s.running];
      Step(s, Op<T>.Sleep(quanta)) ==
        (if r.id == 0 || quanta <= 0 then Outcome(s, -1)
         else Outcome(Schedule(s.Put(s.running, r.(state := SLEEP, sleep := quanta + 1))
                                .(sleeping := s.sleeping[r.id := s.running])), 0))
  {
    hide Schedule;
  }

  lemma TickIs<T>(s: State<T>)
    requires Inv(s)
    ensures Step(s, Op<T>.Tick).state == Schedule(s) && Entered(s)
  {
    hide Schedule;
  }

  lemma OwnerFacts<T>(s: State<T>, tid: int)
    requires Inv(s) && tid in s.threads
    ensures s.threads[tid] in s.heap && s.heap[s.threads[tid]].id == tid && Live(s, s.threads[tid])
    ensures s.heap[s.threads[tid]].state == RUNNING ==> s.threads[tid] == s.running
    ensures s.heap[s.threads[tid]].state == READY ==> s.threads[tid] in s.ready
  {
    assert Placed(s, s.threads[tid]);
  }

  lemma RunnerOf<T>(s: State<T>)
    requires Inv(s)
    ensures s.running in s.heap && s.heap[s.running].id in s.threads && s.threads[s.heap[s.running].id] == s.running
  {
  }

  lemma NotYetAsleep<T>(s: State<T>)
    requires Inv(s)
    ensures s.heap[s.running].id !in s.sleeping
  {
    assert Placed(s, s.running);
  }

  lemma QueuesAllocated<T>(s: State<T>)
    requires Inv(s)
    ensures forall t :: t in s.blocked || t in s.ready ==> t in s.heap
    ensures NoDup(s.ready)
    ensures forall t, u :: t in s.ready && u in s.ready && s.heap[t].id == s.heap[u].id ==> t == u
  {
    forall t | t in s.blocked || t in s.ready ensures Live(s, t) {
    }
  }

  lemma BlockedOwner<T>(s: State<T>, tid: int, i: nat)
    requires Inv(s) && tid in s.threads && i == IndexOf(s.heap, s.blocked, tid) < |s.blocked|
    ensures s.blocked[i] == s.threads[tid] && s.blocked[i] in s.heap
  {
    assert Live(s, s.blocked[i]);
  }

  /** Filtering by id looks at ids only. */
  /** Taking the front off a queue that is being drained. */
  lemma DrainOne<T>(heap: map<T, Rec>, q: seq<T>, tid: int, kept: seq<T>)
    requires q != []
    ensures kept + Without(heap, q, tid)
         == (if q[0] in heap && heap[q[0]].id == tid then kept else kept + [q[0]]) + Without(heap, q[1..], tid)
  {
    var rest := Without(heap, q[1..], tid);
    assert kept + ([q[0]] + rest) == (kept + [q[0]]) + rest;
  }

  lemma DrainNone<T>(heap: map<T, Rec>, tid: int)
    ensures Without(heap, [], tid) == []
  {
  }

  lemma FrontLeaves<T>(q: seq<T>)
    requires q != [] && NoDup(q)
    ensures NoDup(q[1..]) && q[0] !in q[1..] && forall t :: t in q <==> t == q[0] || t in q[1..]
  {
    assert q == [q[0]] + q[1..];
  }

  lemma {:induction false} FilterById<T>(a: map<T, Rec>, b: map<T, Rec>, q: seq<T>, tid: int)
    requires a.Keys == b.Keys && forall t :: t in a ==> a[t].id == b[t].id
    ensures Without(a, q, tid) == Without(b, q, tid)
  {
    if q != [] {
      FilterById(a, b, q[1..], tid);
    }
  }

  lemma PutIs<T>(s: State<T>, t: T, r: Rec)
    ensures s.Put(t, r) == s.(heap := s.heap[t := r])
  {
  }
}

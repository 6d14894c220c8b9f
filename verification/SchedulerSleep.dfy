/** A sleeping thread wakes in exactly the scheduler invocation it asked for. */
module SchedulerSleep {
  import opened SchedulerSpec
  import opened SchedulerInvariant
  import opened SchedulerRuns

  /** `t` sleeps and is due when the total reaches `deadline`. */
  ghost predicate AsleepUntil<T>(s: State<T>, t: T, tid: int, deadline: nat) {
    && Live(s, t) && s.heap[t].id == tid && Sleeps(s.heap[t].state)
    && s.heap[t].sleep > 0 && s.total + s.heap[t].sleep == deadline
  }

  /** What became of `t` in the step that woke it. */
  ghost predicate Awake<T>(s: State<T>, t: T, tid: int, wasBlocked: bool) {
    && Live(s, t) && s.heap[t].id == tid
    && if wasBlocked then s.heap[t].state == BLOCKED
       else s.heap[t].state == READY || (s.heap[t].state == RUNNING && s.running == t)
  }

  lemma SleepersAreNotRunning<T>(s: State<T>, t: T)
    requires Inv(s) && Live(s, t) && Sleeps(s.heap[t].state)
    ensures t != s.running && s.heap[t].id in s.sleeping && s.sleeping[s.heap[t].id] == t
    ensures 0 <= s.heap[t].id < MAX_THREAD_NUM && !s.heap[t].terminated
  {
    assert Placed(s, t);
  }

  /** Calls that do not enter the scheduler leave the deadline alone. */
  lemma SleepQuiet<T>(s: State<T>, op: Op<T>, t: T, tid: int, deadline: nat)
    requires Inv(s) && Allowed(s, op) && !Schedules(s, op) && op != Terminate(tid)
    requires AsleepUntil(s, t, tid, deadline)
    ensures AsleepUntil(Step(s, op).state, t, tid, deadline)
  {
    match op
    case Tick =>
    case Sleep(_) =>
    case Spawn(u) => hide DoTerminate, DoBlock, DoResume, DoSleep, Schedule;
    case Terminate(id) => SleepTerminate(s, id, t, tid, deadline);
    case Block(id) => SleepBlock(s, id, t, tid, deadline);
    case Resume(id) => SleepResume(s, id, t, tid, deadline);
  }

  lemma SleepTerminate<T>(s: State<T>, id: int, t: T, tid: int, deadline: nat)
    requires Inv(s) && id != 0 && id != tid && AsleepUntil(s, t, tid, deadline)
    requires id in s.threads ==> s.At(s.threads[id]).state != RUNNING
    ensures AsleepUntil(DoTerminate(s, id).state, t, tid, deadline)
  {
    hide Schedule, DeleteThread, Core, Inv, Live, Removed;
    RunningPlaced(s);
    if id in s.threads {
      LiveOwner(s, id);
      LiveAllocated(s, t);
      NotEnded(s, s.threads[id]);
      DeleteLive(s, s.threads[id]);
      RemovedSpares(s, DeleteThread(s, s.threads[id]), s.threads[id], t);
    }
  }

  lemma SleepBlock<T>(s: State<T>, id: int, t: T, tid: int, deadline: nat)
    requires Inv(s) && AsleepUntil(s, t, tid, deadline)
    requires id in s.threads && id != 0 ==> s.At(s.threads[id]).state != RUNNING
    ensures AsleepUntil(DoBlock(s, id).state, t, tid, deadline)
  {
    hide Schedule, Without;
  }

  lemma SleepResume<T>(s: State<T>, id: int, t: T, tid: int, deadline: nat)
    requires Inv(s) && AsleepUntil(s, t, tid, deadline)
    ensures AsleepUntil(DoResume(s, id).state, t, tid, deadline)
  {
    var i := IndexOf(s.heap, s.blocked, id);
    if id in s.threads && i < |s.blocked| {
      LiveOwner(s, id);
      EraseLive(s, s.threads[id]);
      assert Placed(s, t);
    }
  }

  /** One invocation brings the deadline one quantum closer, or is it. */
  lemma SleepScheduled<T>(s: State<T>, op: Op<T>, t: T, tid: int, deadline: nat)
    requires Inv(s) && Allowed(s, op) && Schedules(s, op) && AsleepUntil(s, t, tid, deadline)
    ensures var s' := Step(s, op).state;
            && s'.total == s.total + 1
            && (s'.total < deadline ==> AsleepUntil(s', t, tid, deadline) && s'.heap[t].state == s.heap[t].state)
            && (s'.total == deadline ==> Awake(s', t, tid, s.heap[t].state == SLEEP_BLOCK))
  {
    SleepersAreNotRunning(s, t);
    SleepTicks(s, op, t, tid, deadline);
    var e := Entry(s, op);
    hide *;
    EntryEntered(s, op);
    LiveAllocated(s, t);
    EntersFacts(s, e, t);
    StepInv(s, op);
    StepQuanta(s, op);
    ScheduleRecord(e, t);
    WokenSleeper(s, e, t);
    AwakeCases(s, Step(s, op).state, t, tid, deadline);
  }

  lemma SleepTicks<T>(s: State<T>, op: Op<T>, t: T, tid: int, deadline: nat)
    requires AsleepUntil(s, t, tid, deadline)
    ensures Live(s, t)
  {
  }

  lemma WokenSleeper<T>(s: State<T>, e: State<T>, t: T)
    requires EntersFrom(s, e) && Inv(s) && Live(s, t) && Sleeps(s.heap[t].state) && t != s.running
    ensures t in e.heap && Woken(e, t, MAX_THREAD_NUM) == Woken(s, t, MAX_THREAD_NUM)
  {
    assert Placed(s, t) && Placed(e, t);
    SleepersAreNotRunning(s, t);
    assert e.sleeping[s.heap[t].id] == t;
  }

  lemma AwakeCases<T>(s: State<T>, s': State<T>, t: T, tid: int, deadline: nat)
    requires Inv(s) && AsleepUntil(s, t, tid, deadline) && Inv(s') && Live(s', t) && s'.total == s.total + 1
    requires t in s.heap && t in s'.heap
    requires var w := Woken(s, t, MAX_THREAD_NUM);
             && s'.heap[t] == (if t == s'.running then w.(state := RUNNING, quantum := w.quantum + 1) else w)
             && (t == s'.running ==> w.state == READY)
    ensures s'.total < deadline ==> AsleepUntil(s', t, tid, deadline) && s'.heap[t].state == s.heap[t].state
    ensures s'.total == deadline ==> Awake(s', t, tid, s.heap[t].state == SLEEP_BLOCK)
  {
  }

  lemma SleepStep<T>(s: State<T>, op: Op<T>, t: T, tid: int, deadline: nat)
    requires Inv(s) && Allowed(s, op) && op != Terminate(tid) && AsleepUntil(s, t, tid, deadline)
    ensures var s' := Step(s, op).state;
            && s'.total <= deadline
            && (s'.total < deadline ==> AsleepUntil(s', t, tid, deadline))
            && (s'.total == deadline ==> Awake(s', t, tid, s.heap[t].state == SLEEP_BLOCK))
  {
    hide Step, Inv, Allowed, Schedules, Awake;
    if Schedules(s, op) {
      SleepScheduled(s, op, t, tid, deadline);
    } else {
      SleepQuiet(s, op, t, tid, deadline);
    }
  }

  /** `uthread_sleep(k)` called when the total is Q sets the deadline Q + k + 1. */
  lemma SleepStart<T>(s: State<T>, k: int)
    requires Inv(s) && s.heap[s.running].id != 0 && k > 0
    ensures var s' := DoSleep(s, k).state;
            && s'.total == s.total + 1
            && AsleepUntil(s', s.running, s.heap[s.running].id, s.total + k + 1)
            && s'.heap[s.running].state == SLEEP
  {
    hide Core, Inv, Entered, Schedule, Step, EntersFrom, AsleepUntil, Live;
    var t, op := s.running, Op<T>.Sleep(k);
    RunningPlaced(s);
    LiveAllocated(s, t);
    var e := Entry(s, op);
    assert e == s.Put(t, s.heap[t].(state := SLEEP, sleep := k + 1)).(sleeping := s.sleeping[s.heap[t].id := t]);
    SleepEntered(s, k);
    EntryEntered(s, op);
    StepQuanta(s, op);
    ScheduleRecord(e, t);
    SleepIsStep(s, k);
    IdInRange(s, t);
    LiveAllocated(DoSleep(s, k).state, t);
    StartsAsleep(s, DoSleep(s, k).state, t, k);
  }

  lemma IdInRange<T>(s: State<T>, t: T)
    requires Core(s) && Live(s, t)
    ensures t in s.heap && 0 <= s.heap[t].id < MAX_THREAD_NUM
  {
  }

  lemma StartsAsleep<T>(s: State<T>, s': State<T>, t: T, k: int)
    requires t in s.heap && k > 0 && Live(s', t) && s'.total == s.total + 1
    requires t in s'.heap && s'.heap[t].id == s.heap[t].id && s'.heap[t].state == SLEEP && s'.heap[t].sleep == k
    ensures AsleepUntil(s', t, s.heap[t].id, s.total + k + 1)
  {
  }

  lemma SleepIsStep<T>(s: State<T>, k: int)
    ensures Step(s, Op<T>.Sleep(k)) == DoSleep(s, k)
  {
  }

  /** The exact deadline: whatever calls and ticks come in between, a thread
      that asked to sleep `k` quanta when the total was Q sleeps while the total
      is below Q + k + 1, and the invocation that raises the total to Q + k + 1
      wakes it: ready (or running at once) unless it is blocked as well. */
  lemma {:induction false} SleepDeadline<T>(states: seq<State<T>>, ops: seq<Op<T>>, k: int, i: nat)
    requires Run(states, ops) && 1 <= i <= |ops| && ops[0] == Op<T>.Sleep(k) && k > 0
    requires states[0].At(states[0].running).id != 0
    requires forall m :: 1 <= m < i ==> ops[m] != Terminate(states[0].At(states[0].running).id)
    requires states[i].total <= states[0].total + k + 1
    ensures var s0 := states[0];
            var t, tid, deadline := s0.running, s0.At(s0.running).id, s0.total + k + 1;
            && (states[i].total < deadline ==> AsleepUntil(states[i], t, tid, deadline))
            && (states[i].total == deadline && states[i - 1].total < deadline ==>
                  Awake(states[i], t, tid, t in states[i - 1].heap && states[i - 1].heap[t].state == SLEEP_BLOCK))
  {
    var s0 := states[0];
    if i == 1 {
      SleepStart(s0, k);
      SleepIsStep(s0, k);
    } else {
      var s, op := states[i - 1], ops[i - 1];
      RunInv(states, ops, i - 1);
      StepQuanta(s, op);
      SleepDeadline(states, ops, k, i - 1);
      if s.total < s0.total + k + 1 {
        SleepStep(s, op, s0.running, s0.At(s0.running).id, s0.total + k + 1);
      }
    }
  }
}

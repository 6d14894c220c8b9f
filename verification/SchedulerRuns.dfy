/** Properties of whole runs of the scheduler. */
module SchedulerRuns {
  import opened SchedulerSpec
  import opened SchedulerInvariant

  /** Does this call, in this state, enter the scheduler? */
  ghost predicate Schedules<T>(s: State<T>, op: Op<T>) {
    match op
    case Tick => true
    case Terminate(tid) => tid in s.threads && s.At(s.threads[tid]).state == RUNNING
    case Block(tid) => tid in s.threads && tid != 0 && s.At(s.threads[tid]).state == RUNNING
    case Sleep(quanta) => s.At(s.running).id != 0 && quanta > 0
    case _ => false
  }

  /** The state in which the scheduler is entered. */
  ghost function Entry<T>(s: State<T>, op: Op<T>): State<T>
    requires Schedules(s, op)
  {
    match op
    case Tick => s
    case Terminate(tid) => s.Put(s.threads[tid], s.At(s.threads[tid]).(terminated := true))
    case Block(tid) => s.Put(s.threads[tid], s.At(s.threads[tid]).(state := BLOCKED)).(blocked := s.blocked + [s.threads[tid]])
    case Sleep(quanta) => s.Put(s.running, s.At(s.running).(state := SLEEP, sleep := quanta + 1))
                           .(sleeping := s.sleeping[s.At(s.running).id := s.running])
  }

  lemma EntryIsStep<T>(s: State<T>, op: Op<T>)
    requires Schedules(s, op)
    ensures Step(s, op).state == Schedule(Entry(s, op))
  {
    hide Schedule, FreeTid, IndexOf, Without, DeleteThread;
  }

  /** Only the running thread's record and place can differ on entry. */
  ghost predicate EntersFrom<T>(s: State<T>, e: State<T>) {
    && Entered(e) && (forall u :: u in s.heap ==> (Live(e, u) <==> Live(s, u)))
    && e.heap.Keys == s.heap.Keys && e.running == s.running && e.ready == s.ready && e.total == s.total
    && e.retired == s.retired && e.threads == s.threads && e.termination == s.termination
    && s.running in s.heap
    && (forall u :: u in s.heap && u != s.running ==> e.heap[u] == s.heap[u])
    && e.heap[s.running].quantum == s.heap[s.running].quantum && e.heap[s.running].id == s.heap[s.running].id
  }

  lemma EntryEntered<T>(s: State<T>, op: Op<T>)
    requires Inv(s) && Allowed(s, op) && Schedules(s, op)
    ensures Step(s, op).state == Schedule(Entry(s, op))
    ensures EntersFrom(s, Entry(s, op))
  {
    hide Schedule, FreeTid, IndexOf, Without, DeleteThread, Step, Core, Inv, Entered, Live;
    RunningPlaced(s);
    LiveAllocated(s, s.running);
    if op.Terminate? || op.Block? {
      RunsAlone(s, op);
    }
    EntryIsStep(s, op);
    match op
    case Terminate(tid) => TerminateEntered(s);
    case Block(tid) => BlockRunning(s);
    case Sleep(quanta) => SleepEntered(s, quanta);
    case _ => TickEntered(s);
  }

  /** A call that enters the scheduler for a thread is about the running one. */
  lemma RunsAlone<T>(s: State<T>, op: Op<T>)
    requires Inv(s) && Schedules(s, op) && (op.Terminate? || op.Block?)
    ensures op.tid in s.threads && s.threads[op.tid] == s.running && s.running in s.heap && s.heap[s.running].id == op.tid
  {
    LiveOwner(s, op.tid);
    assert Placed(s, s.threads[op.tid]);
  }

  lemma TickEntered<T>(s: State<T>)
    requires Inv(s)
    ensures Entered(s)
  {
  }

  lemma LiveOwner<T>(s: State<T>, tid: int)
    requires Core(s) && tid in s.threads
    ensures Live(s, s.threads[tid]) && s.heap[s.threads[tid]].id == tid
  {
  }

  // ---------------------------------------------------- what one invocation does

  /** The record of a thread that is neither running nor chosen. */
  lemma ScheduleRecord<T>(s: State<T>, t: T)
    requires Entered(s) && Live(s, t)
    requires t == s.running ==> !s.heap[t].terminated && s.heap[t].state != RUNNING
    ensures var s', w := Schedule(s), Woken(s, t, MAX_THREAD_NUM);
            && Live(s', t)
            && s'.heap[t] == (if t == s'.running then w.(state := RUNNING, quantum := w.quantum + 1) else w)
            && (t == s'.running ==> w.state == READY && t != s.running)
  {
    hide *;
    var s1 := TickUpTo(s, MAX_THREAD_NUM);
    var s2 := DeletePending(s1);
    var s3 := Retire(s2);
    TickCore(s, MAX_THREAD_NUM);
    WokenRunner(s, s1);
    LiveAllocated(s, t);
    WokenIs(s, s1, t);
    PendingGone(s1);
    RetireCore(s2);
    LiveAllocated(s2, s2.running);
    SwitchRecord(s3, t);
    ScheduleIs(s);
  }

  lemma WokenIs<T>(s: State<T>, s1: State<T>, t: T)
    requires OnlyWakes(s, s1, MAX_THREAD_NUM) && t in s.heap
    ensures t in s1.heap && s1.heap[t] == Woken(s, t, MAX_THREAD_NUM)
  {
  }

  lemma SwitchRecord<T>(s: State<T>, t: T)
    requires Core(s) && s.running in s.heap && Live(s, t)
    requires var r := s.heap[s.running];
             if Live(s, s.running)
             then !r.terminated && (r.state == RUNNING || r.state == BLOCKED || r.state == SLEEP)
             else r.terminated
    requires t == s.running ==> s.heap[t].state != RUNNING
    ensures var s', w := Switch(s), s.heap[t];
            && Live(s', t)
            && s'.heap[t] == (if t == s'.running then w.(state := RUNNING, quantum := w.quantum + 1) else w)
            && (t == s'.running ==> w.state == READY && t != s.running)
  {
    hide Switch, Core, Inv, Live;
    Switched(s);
    SwitchIs(s);
    TurnCases(s);
    RunnerLeft(s);
    LiveAllocated(s, t);
    ReadyRecords(s);
  }

  lemma ReadyRecords<T>(s: State<T>)
    requires Core(s)
    ensures forall t :: t in s.ready ==> t in s.heap && s.heap[t].state == READY
    ensures s.running in s.heap && Live(s, s.running) && s.heap[s.running].state == RUNNING ==> s.running !in s.ready
  {
    forall t | t in s.ready ensures t in s.heap && s.heap[t].state == READY {
      assert Live(s, t) && Placed(s, t);
    }
  }

  /** The front of the ready queue runs; the rest keep their order, and
      whoever becomes ready goes behind them. */
  lemma ScheduleFront<T>(s: State<T>)
    requires Entered(s) && s.ready != []
    ensures Schedule(s).running == s.ready[0] && s.ready[1..] <= Schedule(s).ready
  {
    hide *;
    var s1 := TickUpTo(s, MAX_THREAD_NUM);
    var s2 := DeletePending(s1);
    var s3 := Retire(s2);
    TickCore(s, MAX_THREAD_NUM);
    WokenRunner(s, s1);
    ReadyGrows(s, s1);
    PendingGone(s1);
    RetireCore(s2);
    SwitchFront(s3);
    ScheduleIs(s);
    PrefixTail(s.ready, s3.ready, Switch(s3).ready);
  }

  lemma ReadyGrows<T>(s: State<T>, s1: State<T>)
    requires OnlyWakes(s, s1, MAX_THREAD_NUM)
    ensures s.ready <= s1.ready
  {
  }

  lemma SwitchFront<T>(s: State<T>)
    requires s.ready != []
    ensures Switch(s).running == s.ready[0] && s.ready[1..] <= Switch(s).ready
  {
  }

  lemma PrefixTail<T>(a: seq<T>, b: seq<T>, c: seq<T>)
    requires a != [] && a <= b && b[1..] <= c
    ensures a[0] == b[0] && a[1..] <= c
  {
    assert a[1..] <= b[1..];
  }

  // ------------------------------------------------------------ quantum conservation

  /** The quanta of all allocated threads together. */
  ghost function Quanta<T>(heap: map<T, Rec>): nat {
    if heap == map[] then 0
    else
      var t :| t in heap;
      heap[t].quantum + Quanta(heap - {t})
  }

  /** Every quantum ever started is on some thread's account. */
  ghost predicate Conserved<T>(s: State<T>) {
    s.total == s.retired + Quanta(s.heap)
  }

  lemma {:induction false} QuantaWithout<T>(heap: map<T, Rec>, t: T)
    requires t in heap
    ensures Quanta(heap) == heap[t].quantum + Quanta(heap - {t})
  {
    var u :| u in heap && Quanta(heap) == heap[u].quantum + Quanta(heap - {u});
    if u != t {
      QuantaWithout(heap - {u}, t);
      QuantaWithout(heap - {t}, u);
      assert heap - {u} - {t} == heap - {t} - {u};
    }
  }

  lemma QuantaPut<T>(heap: map<T, Rec>, t: T, r: Rec)
    ensures Quanta(heap[t := r]) == Quanta(heap) + r.quantum - (if t in heap then heap[t].quantum else 0)
  {
    QuantaWithout(heap[t := r], t);
    assert heap[t := r] - {t} == heap - {t};
    if t in heap {
      QuantaWithout(heap, t);
    } else {
      assert heap - {t} == heap;
    }
  }

  lemma {:induction false} QuantaSame<T>(a: map<T, Rec>, b: map<T, Rec>)
    requires a.Keys == b.Keys && forall t :: t in a ==> a[t].quantum == b[t].quantum
    ensures Quanta(a) == Quanta(b)
  {
    if a != map[] {
      var t :| t in a && Quanta(a) == a[t].quantum + Quanta(a - {t});
      QuantaWithout(b, t);
      QuantaSame(a - {t}, b - {t});
    } else {
      assert b == map[];
    }
  }

  lemma TickQuanta<T>(s: State<T>, s1: State<T>)
    requires OnlyWakes(s, s1, MAX_THREAD_NUM)
    ensures Quanta(s1.heap) == Quanta(s.heap) && s1.total == s.total && s1.retired == s.retired
  {
    QuantaSame(s.heap, s1.heap);
  }

  lemma DeleteQuanta<T>(s: State<T>)
    requires Core(s)
    ensures var s' := DeletePending(s);
            s'.total == s.total && s'.retired + Quanta(s'.heap) == s.retired + Quanta(s.heap)
  {
    DeletePendingIs(s);
    if s.termination != map[] {
      var t :| Freed(s, DeletePending(s), t);
      QuantaWithout(s.heap, t);
    }
  }

  lemma StartQuanta<T>(s: State<T>)
    requires s.running in s.heap
    ensures var s' := StartQuantum(s);
            s'.total == s.total + 1 && s'.retired == s.retired && Quanta(s'.heap) == Quanta(s.heap) + 1
  {
    var r := s.heap[s.running];
    QuantaPut(s.heap, s.running, r.(quantum := r.quantum + 1, state := RUNNING));
  }

  lemma SwitchQuanta<T>(s: State<T>)
    requires Core(s) && s.running in s.heap
    requires !KeepsTurn(s.heap[s.running]) ==> s.ready != []
    ensures var s' := Switch(s);
            s'.total == s.total + 1 && s'.retired == s.retired && Quanta(s'.heap) == Quanta(s.heap) + 1
  {
    var r := s.heap[s.running];
    if KeepsTurn(r) && s.ready == [] {
      StartQuanta(s);
    } else {
      var s1 := if KeepsTurn(r)
                then s.Put(s.running, r.(state := READY)).(ready := s.ready + [s.running])
                else s;
      QuantaPut(s.heap, s.running, r.(state := READY));
      assert s1.ready[0] in s1.heap by {
        if s.ready != [] {
          assert Live(s, s.ready[0]);
        }
      }
      StartQuanta(s1.(running := s1.ready[0], ready := s1.ready[1..]));
    }
  }

  lemma RunnerLeft<T>(s: State<T>)
    requires Core(s) && s.running in s.heap
    requires var r := s.heap[s.running];
             if Live(s, s.running)
             then !r.terminated && (r.state == RUNNING || r.state == BLOCKED || r.state == SLEEP)
             else r.terminated
    ensures !KeepsTurn(s.heap[s.running]) ==> s.ready != []
  {
    if !KeepsTurn(s.heap[s.running]) {
      SomeoneReady(s);
    }
  }

  /** One invocation of the scheduler is one quantum, on both sides. */
  lemma ScheduleQuanta<T>(s: State<T>)
    requires Entered(s)
    ensures var s' := Schedule(s);
            s'.total == s.total + 1 && s'.retired + Quanta(s'.heap) == s.retired + Quanta(s.heap) + 1
  {
    hide *;
    var s1 := TickUpTo(s, MAX_THREAD_NUM);
    var s2 := DeletePending(s1);
    var s3 := Retire(s2);
    TickCore(s, MAX_THREAD_NUM);
    WokenRunner(s, s1);
    TickQuanta(s, s1);
    DeleteQuanta(s1);
    PendingGone(s1);
    RetireCore(s2);
    LiveAllocated(s2, s2.running);
    RetireTotals(s2);
    RunnerLeft(s3);
    SwitchQuanta(s3);
    ScheduleIs(s);
  }

  lemma RetireTotals<T>(s: State<T>)
    ensures Retire(s).total == s.total && Retire(s).retired == s.retired
  {
  }

  /** A step adds a quantum exactly when it enters the scheduler, and then it
      is charged to exactly one thread. */
  lemma StepQuanta<T>(s: State<T>, op: Op<T>)
    requires Inv(s) && Allowed(s, op)
    ensures var s' := Step(s, op).state;
            && s'.total == s.total + (if Schedules(s, op) then 1 else 0)
            && (Conserved(s) ==> Conserved(s'))
  {
    hide *;
    ConservedIs(s);
    ConservedIs(Step(s, op).state);
    if Schedules(s, op) {
      EntryEntered(s, op);
      EntryQuanta(s, Entry(s, op));
      ScheduleQuanta(Entry(s, op));
    } else {
      QuietQuanta(s, op);
    }
  }

  lemma ConservedIs<T>(s: State<T>)
    ensures Conserved(s) <==> s.total == s.retired + Quanta(s.heap)
  {
  }

  lemma EntryQuanta<T>(s: State<T>, e: State<T>)
    requires EntersFrom(s, e)
    ensures Entered(e) && e.total == s.total && e.retired == s.retired && Quanta(e.heap) == Quanta(s.heap)
  {
    hide Entered, Live, Quanta;
    QuantaSame(s.heap, e.heap);
  }

  lemma QuietQuanta<T>(s: State<T>, op: Op<T>)
    requires Inv(s) && Allowed(s, op) && !Schedules(s, op)
    ensures var s' := Step(s, op).state;
            s'.total == s.total && s'.retired + Quanta(s'.heap) == s.retired + Quanta(s.heap)
  {
    hide Schedule, FreeTid, IndexOf, Without, DeleteThread, Quanta, Core, Inv;
    RunningPlaced(s);
    match op
    case Tick =>
    case Sleep(_) =>
    case Spawn(t) => QuantaPut(s.heap, t, Rec(READY, FreeTid(s.threads, 0), 0, 0, false));
    case Terminate(tid) => TerminateQuanta(s, tid);
    case Block(tid) => BlockQuanta(s, tid);
    case Resume(tid) => ResumeQuanta(s, tid);
  }

  lemma TerminateQuanta<T>(s: State<T>, tid: int)
    requires Inv(s) && tid != 0 && (tid in s.threads ==> s.At(s.threads[tid]).state != RUNNING)
    ensures var s' := DoTerminate(s, tid).state;
            s'.total == s.total && s'.retired + Quanta(s'.heap) == s.retired + Quanta(s.heap)
  {
    hide Schedule, EraseFirst, Without, Quanta;
    if tid in s.threads {
      LiveOwner(s, tid);
      assert Placed(s, s.threads[tid]);
      hide Inv, Core;
      QuantaWithout(s.heap, s.threads[tid]);
    }
  }

  lemma BlockQuanta<T>(s: State<T>, tid: int)
    requires Core(s) && (tid in s.threads && tid != 0 ==> s.At(s.threads[tid]).state != RUNNING)
    ensures var s' := DoBlock(s, tid).state;
            s'.total == s.total && s'.retired == s.retired && Quanta(s'.heap) == Quanta(s.heap)
  {
    hide Schedule, Without, Quanta, Core;
    if tid in s.threads {
      LiveOwner(s, tid);
      LiveAllocated(s, s.threads[tid]);
      var r := s.heap[s.threads[tid]];
      QuantaPut(s.heap, s.threads[tid], r.(state := SLEEP_BLOCK));
      QuantaPut(s.heap, s.threads[tid], r.(state := BLOCKED));
    }
  }

  lemma ResumeQuanta<T>(s: State<T>, tid: int)
    requires Core(s)
    ensures var s' := DoResume(s, tid).state;
            s'.total == s.total && s'.retired == s.retired && Quanta(s'.heap) == Quanta(s.heap)
  {
    hide Quanta, Core;
    var i := IndexOf(s.heap, s.blocked, tid);
    if i < |s.blocked| {
      var r := s.heap[s.blocked[i]];
      QuantaPut(s.heap, s.blocked[i], r.(state := SLEEP));
      QuantaPut(s.heap, s.blocked[i], r.(state := READY));
    }
  }

  lemma NotEnded<T>(s: State<T>, t: T)
    requires Inv(s) && Live(s, t) && s.heap[t].state != RUNNING
    ensures !s.heap[t].terminated && t in s.heap
  {
    assert Placed(s, t);
  }

  lemma RemovedSpares<T>(s: State<T>, s': State<T>, t: T, u: T)
    requires Removed(s, s', t) && Live(s, u) && u != t
    ensures Live(s', u) && u in s.heap && u in s'.heap && s'.heap[u] == s.heap[u] && s'.total == s.total
    ensures u in s'.blocked <==> u in s.blocked
    ensures s'.running == s.running && s'.termination == s.termination
  {
  }

  // ------------------------------------------------------------ bounded waiting

  /** The thread with object `t` is neither blocked nor ended by this call. */
  ghost predicate Spares<T>(s: State<T>, op: Op<T>, t: T) {
    t in s.heap && op != Block(s.heap[t].id) && op != Terminate(s.heap[t].id)
  }

  lemma {:induction false} DroppedKeepsOrder<T>(heap: map<T, Rec>, q: seq<T>, tid: int, i: nat)
    requires i < |q| && !(q[i] in heap && heap[q[i]].id == tid)
    ensures exists j: nat :: j <= i && j < |Without(heap, q, tid)| && Without(heap, q, tid)[j] == q[i]
  {
    var rest := Without(heap, q[1..], tid);
    if i == 0 {
      assert Without(heap, q, tid)[0] == q[0];
    } else {
      DroppedKeepsOrder(heap, q[1..], tid, i - 1);
      var j: nat :| j <= i - 1 && j < |rest| && rest[j] == q[i];
      if q[0] in heap && heap[q[0]].id == tid {
        assert Without(heap, q, tid)[j] == q[i];
      } else {
        assert Without(heap, q, tid)[j + 1] == q[i];
      }
    }
  }

  /** Thread `t` is at position `i` of the ready queue or better. */
  ghost predicate Waits<T>(s: State<T>, t: T, i: nat) {
    exists j: nat :: j <= i && j < |s.ready| && s.ready[j] == t
  }

  /** A step never moves a waiting thread back, and a step that enters the
      scheduler moves it forward or lets it run. */
  lemma WaitsLess<T>(s: State<T>, op: Op<T>, t: T, i: nat)
    requires Inv(s) && Allowed(s, op) && Waits(s, t, i) && Spares(s, op, t)
    ensures var s' := Step(s, op).state;
            && t in s'.heap && s'.heap[t].id == s.heap[t].id
            && (!Schedules(s, op) ==> Waits(s', t, i))
            && (Schedules(s, op) ==> s'.running == t || (i > 0 && Waits(s', t, i - 1)))
  {
    var j: nat :| j <= i && j < |s.ready| && s.ready[j] == t;
    assert Live(s, t);
    if Schedules(s, op) {
      WaitsScheduled(s, op, t, j);
    } else {
      WaitsQuiet(s, op, t, j);
    }
  }

  lemma WaitsScheduled<T>(s: State<T>, op: Op<T>, t: T, j: nat)
    requires Inv(s) && Allowed(s, op) && Schedules(s, op) && j < |s.ready| && s.ready[j] == t
    ensures var s' := Step(s, op).state;
            && t in s.heap && t in s'.heap && s'.heap[t].id == s.heap[t].id
            && (if j == 0 then s'.running == t else j - 1 < |s'.ready| && s'.ready[j - 1] == t)
  {
    hide *;
    var e := Entry(s, op);
    EntryEntered(s, op);
    ReadyIsLive(s, t);
    EntersFacts(s, e, t);
    ScheduleFront(e);
    ScheduleRecord(e, t);
    WokenKeepsId(e, t);
    LiveAllocated(Schedule(e), t);
    if j > 0 {
      assert e.ready[1..][j - 1] == t;
    }
  }

  lemma ReadyIsLive<T>(s: State<T>, t: T)
    requires Inv(s) && t in s.ready
    ensures Live(s, t) && t in s.heap && t != s.running && s.heap[t].state == READY && !s.heap[t].terminated
  {
    assert Live(s, t) && Placed(s, t);
  }

  lemma EntersFacts<T>(s: State<T>, e: State<T>, t: T)
    requires EntersFrom(s, e) && Live(s, t) && t != s.running
    ensures Entered(e) && Live(e, t) && t in e.heap && e.ready == s.ready && e.heap[t] == s.heap[t] && e.running == s.running
    ensures t in s.heap && e.total == s.total && e.heap.Keys == s.heap.Keys
  {
  }

  lemma WokenKeepsId<T>(s: State<T>, t: T)
    requires t in s.heap
    ensures Woken(s, t, MAX_THREAD_NUM).id == s.heap[t].id
  {
  }

  lemma WaitsQuiet<T>(s: State<T>, op: Op<T>, t: T, j: nat)
    requires Inv(s) && Allowed(s, op) && !Schedules(s, op) && Spares(s, op, t)
    requires j < |s.ready| && s.ready[j] == t
    ensures var s' := Step(s, op).state;
            && t in s'.heap && s'.heap[t].id == s.heap[t].id && Waits(s', t, j)
  {
    hide Schedule, FreeTid, Core, Inv, IndexOf, Without, DeleteThread;
    ReadyIsLive(s, t);
    var s' := Step(s, op).state;
    match op
    case Tick =>
    case Sleep(_) => assert s'.ready[j] == t;
    case Spawn(_) => assert s'.ready[j] == t;
    case Terminate(tid) => WaitsTerminate(s, tid, t, j);
    case Block(tid) => WaitsBlock(s, tid, t, j);
    case Resume(tid) => ResumeKeepsOrder(s, tid, t, j);
  }

  lemma WaitsTerminate<T>(s: State<T>, tid: int, t: T, j: nat)
    requires Inv(s) && tid != 0 && (tid in s.threads ==> s.At(s.threads[tid]).state != RUNNING)
    requires j < |s.ready| && s.ready[j] == t && s.At(t).id != tid
    ensures var s' := DoTerminate(s, tid).state;
            && t in s.heap && t in s'.heap && s'.heap[t].id == s.heap[t].id && Waits(s', t, j)
  {
    hide Core, Inv, Schedule, EraseFirst, Without, Waits;
    ReadyIsLive(s, t);
    if tid in s.threads {
      RunningPlaced(s);
      LiveOwner(s, tid);
      DeleteLiveSpares(s, tid, t);
      WaitsWithout(s, DeleteThread(s, s.threads[tid]), tid, t, j);
    } else {
      WaitsWithout(s, s, tid, t, j);
    }
  }

  /** Dropping another thread from the queue moves nobody back. */
  lemma WaitsWithout<T>(s: State<T>, s': State<T>, tid: int, t: T, j: nat)
    requires j < |s.ready| && s.ready[j] == t && !(t in s.heap && s.heap[t].id == tid)
    requires s'.ready == s.ready || s'.ready == Without(s.heap, s.ready, tid)
    ensures Waits(s', t, j)
  {
    DroppedKeepsOrder(s.heap, s.ready, tid, j);
    if s'.ready == s.ready {
      assert s'.ready[j] == t;
    }
  }

  lemma WaitsBlock<T>(s: State<T>, tid: int, t: T, j: nat)
    requires Inv(s) && (tid in s.threads && tid != 0 ==> s.At(s.threads[tid]).state != RUNNING)
    requires j < |s.ready| && s.ready[j] == t && s.At(t).id != tid
    ensures var s' := DoBlock(s, tid).state;
            && t in s.heap && t in s'.heap && s'.heap[t].id == s.heap[t].id && Waits(s', t, j)
  {
    hide Core, Inv, Schedule, Without, Waits;
    ReadyIsLive(s, t);
    WaitsWithout(s, DoBlock(s, tid).state, tid, t, j);
    if tid in s.threads {
      RunningPlaced(s);
      LiveOwner(s, tid);
    }
  }

  lemma DeleteLiveSpares<T>(s: State<T>, tid: int, t: T)
    requires Inv(s) && tid != 0 && tid in s.threads && s.heap[s.threads[tid]].state != RUNNING
    requires Live(s, t) && s.heap[t].id != tid
    ensures var s' := DeleteThread(s, s.threads[tid]);
            t in s.heap && t in s'.heap && s'.heap[t] == s.heap[t]
  {
  }

  lemma ResumeKeepsOrder<T>(s: State<T>, tid: int, t: T, j: nat)
    requires Inv(s) && j < |s.ready| && s.ready[j] == t
    ensures var s' := DoResume(s, tid).state;
            t in s.heap && t in s'.heap && s'.heap[t].id == s.heap[t].id && Waits(s', t, j)
  {
    var s' := DoResume(s, tid).state;
    assert Live(s, t);
    assert j < |s'.ready| && s'.ready[j] == t;
  }

  /** A run of the library: the states before and after each call. */
  ghost predicate Run<T>(states: seq<State<T>>, ops: seq<Op<T>>) {
    && |states| == |ops| + 1 && Inv(states[0])
    && forall i :: 0 <= i < |ops| ==> Allowed(states[i], ops[i]) && states[i + 1] == Step(states[i], ops[i]).state
  }

  lemma {:induction false} RunInv<T>(states: seq<State<T>>, ops: seq<Op<T>>, i: nat)
    requires Run(states, ops) && i <= |ops|
    ensures Inv(states[i])
  {
    if i > 0 {
      RunInv(states, ops, i - 1);
      StepInv(states[i - 1], ops[i - 1]);
    }
  }

  /** Scheduler invocations among the calls `from`, ..., `till - 1`. */
  ghost function Invocations<T>(states: seq<State<T>>, ops: seq<Op<T>>, from: nat, till: nat): nat
    requires from <= till <= |ops| <= |states|
    decreases till - from
  {
    if from == till then 0
    else (if Schedules(states[from], ops[from]) then 1 else 0) + Invocations(states, ops, from + 1, till)
  }

  /** The total is the number of scheduler invocations, plus where it began,
      and no quantum goes unaccounted for. */
  lemma {:induction false} TotalCountsInvocations<T>(states: seq<State<T>>, ops: seq<Op<T>>, from: nat, till: nat)
    requires Run(states, ops) && from <= till <= |ops|
    ensures states[till].total == states[from].total + Invocations(states, ops, from, till)
    ensures Conserved(states[from]) ==> Conserved(states[till])
    decreases till - from
  {
    if from < till {
      RunInv(states, ops, from);
      StepQuanta(states[from], ops[from]);
      TotalCountsInvocations(states, ops, from + 1, till);
    }
  }

  /** A thread that is not blocked or ended meanwhile runs at the latest in the
      invocation numbered by its place in the queue. */
  lemma {:induction false} BoundedWaiting<T>(states: seq<State<T>>, ops: seq<Op<T>>, from: nat, t: T, i: nat) returns (k: nat)
    requires Run(states, ops) && from <= |ops| && Waits(states[from], t, i)
    requires t in states[from].heap
    requires forall m :: from <= m < |ops| ==>
               ops[m] != Block(states[from].heap[t].id) && ops[m] != Terminate(states[from].heap[t].id)
    requires Invocations(states, ops, from, |ops|) > i
    ensures from < k <= |ops| && states[k].running == t
    ensures Invocations(states, ops, from, k) <= i + 1
    decreases |ops| - from
  {
    hide Step, Inv, Waits, Allowed, Schedules;
    var s, op := states[from], ops[from];
    RunInv(states, ops, from);
    WaitsLess(s, op, t, i);
    if !Schedules(s, op) {
      k := BoundedWaiting(states, ops, from + 1, t, i);
    } else if states[from + 1].running == t {
      k := from + 1;
    } else {
      k := BoundedWaiting(states, ops, from + 1, t, i - 1);
    }
  }

  /** The ids of the first `n` threads of `q`. */
  ghost function TidsOf<T>(s: State<T>, q: seq<T>, n: nat): set<int>
    requires n <= |q|
  {
    if n == 0 then {} else TidsOf(s, q, n - 1) + {s.At(q[n - 1]).id}
  }

  lemma {:induction false} TidsCount<T>(s: State<T>, q: seq<T>, n: nat)
    requires n <= |q| && NoDup(q) && forall t :: t in q ==> Live(s, t)
    ensures |TidsOf(s, q, n)| == n && TidsOf(s, q, n) <= s.threads.Keys
    ensures forall i :: i in TidsOf(s, q, n) ==> exists k :: 0 <= k < n && s.At(q[k]).id == i
  {
    if n > 0 {
      TidsCount(s, q, n - 1);
      var last := q[n - 1];
      assert Live(s, last);
      forall k | 0 <= k < n - 1 ensures s.At(q[k]).id != s.At(last).id {
        assert Live(s, q[k]) && q[k] != last;
      }
    }
  }

  /** Nobody waits behind more than MAX_THREAD_NUM - 2 others. */
  lemma QueueBound<T>(s: State<T>)
    requires Inv(s)
    ensures |s.ready| + 1 <= |s.threads| <= 100
  {
    var q := s.ready + [s.running];
    assert Placed(s, s.running);
    TidsCount(s, q, |q|);
    Smaller(TidsOf(s, q, |q|), s.threads.Keys);
    ThreadsBound(s, MAX_THREAD_NUM);
    assert |s.threads.Keys| == |s.threads|;
  }

  lemma ThreadsBound<T>(s: State<T>, n: nat)
    requires forall i :: i in s.threads ==> 0 <= i < n
    ensures |s.threads.Keys| <= n
  {
    IdsBelow(n);
    forall i | i in s.threads.Keys ensures i in Ids(n) {
    }
    Smaller(s.threads.Keys, Ids(n));
  }

  /** A ready thread that is not blocked or ended meanwhile runs within
      99 invocations. */
  lemma RunsWithinLimit<T>(states: seq<State<T>>, ops: seq<Op<T>>, from: nat, t: T) returns (k: nat)
    requires Run(states, ops) && from <= |ops| && t in states[from].ready
    requires t in states[from].heap
    requires forall m :: from <= m < |ops| ==>
               ops[m] != Block(states[from].heap[t].id) && ops[m] != Terminate(states[from].heap[t].id)
    requires Invocations(states, ops, from, |ops|) >= 99
    ensures from < k <= |ops| && states[k].running == t
    ensures Invocations(states, ops, from, k) <= 99
  {
    hide Invocations, Inv, Step;
    RunInv(states, ops, from);
    QueueBound(states[from]);
    var i: nat :| i < |states[from].ready| && states[from].ready[i] == t;
    assert Waits(states[from], t, i);
    k := BoundedWaiting(states, ops, from, t, i);
  }

  /** From the start of the library every quantum is accounted for. */
  lemma ConservedFromStart<T>(main: T, states: seq<State<T>>, ops: seq<Op<T>>, i: nat)
    requires Run(states, ops) && states[0] == Init(main) && i <= |ops|
    ensures Conserved(states[i]) && states[i].total == 1 + Invocations(states, ops, 0, i)
  {
    var s := Init(main);
    QuantaPut(map[], main, Rec(RUNNING, 0, 1, 0, false));
    assert s.heap == map[][main := Rec(RUNNING, 0, 1, 0, false)];
    TotalCountsInvocations(states, ops, 0, i);
  }
}

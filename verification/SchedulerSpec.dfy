/** The thread library as a state machine: what each call does to the queues,
    maps and thread records. `T` is the identity of a thread object, the
    pointer of the original, so that a thread id may be reused while the
    object that had it before is still waiting to be freed. */
module SchedulerSpec {

  const MAX_THREAD_NUM: nat := 100

  datatype Status = RUNNING | BLOCKED | READY | SLEEP | SLEEP_BLOCK

  datatype Rec = Rec(state: Status, id: int, quantum: nat, sleep: int, terminated: bool)

  /** `heap` holds the thread objects that are allocated, `retired` the quanta
      of the objects already freed. */
  datatype State<T(==)> = State(
    heap: map<T, Rec>,
    threads: map<int, T>,
    ready: seq<T>,
    blocked: seq<T>,
    sleeping: map<int, T>,
    termination: map<int, T>,
    running: T,
    total: nat,
    count: int,
    retired: nat)
  {
    /** The record of an allocated thread. */
    function At(t: T): Rec {
      if t in heap then heap[t] else Rec(READY, -1, 0, 0, false)
    }

    function Put(t: T, r: Rec): State<T> {
      this.(heap := heap[t := r])
    }
  }

  // ------------------------------------------------------------ helpers

  /** Drain and refill a queue, dropping the threads with id `tid`. */
  function Without<T(==)>(heap: map<T, Rec>, q: seq<T>, tid: int): seq<T> {
    if q == [] then []
    else if q[0] in heap && heap[q[0]].id == tid then Without(heap, q[1..], tid)
    else [q[0]] + Without(heap, q[1..], tid)
  }

  /** Erase the first thread with id `tid`. */
  function EraseFirst<T(==)>(heap: map<T, Rec>, q: seq<T>, tid: int): seq<T> {
    var i := IndexOf(heap, q, tid);
    if i < |q| then q[..i] + q[i + 1..] else q
  }

  /** Position of the first thread with id `tid`, or the length. */
  function IndexOf<T(==)>(heap: map<T, Rec>, q: seq<T>, tid: int): (i: nat)
    ensures i <= |q|
    ensures i < |q| ==> q[i] in heap && heap[q[i]].id == tid
    ensures forall k :: 0 <= k < i ==> !(q[k] in heap && heap[q[k]].id == tid)
  {
    if q == [] then 0
    else if q[0] in heap && heap[q[0]].id == tid then 0
    else
      var rest := IndexOf(heap, q[1..], tid);
      assert forall k :: 1 <= k < rest + 1 ==> q[k] == q[1..][k - 1];
      1 + rest
  }

  /** The smallest thread id from `i` up that is not in use. */
  function FreeTid<T(==)>(threads: map<int, T>, i: nat): (tid: nat)
    requires i <= MAX_THREAD_NUM
    ensures i <= tid <= MAX_THREAD_NUM
    ensures tid < MAX_THREAD_NUM ==> tid !in threads
    ensures forall k: int :: i <= k < tid ==> k in threads
    decreases MAX_THREAD_NUM - i
  {
    if i == MAX_THREAD_NUM || i !in threads then i else FreeTid(threads, i + 1)
  }

  // ------------------------------------------------- freeing a thread object

  function DeleteThread<T(==)>(s: State<T>, t: T): State<T> {
    var r := s.At(t);
    var s1 := s.(blocked := EraseFirst(s.heap, s.blocked, r.id));
    var s2 := if r.state == SLEEP || r.state == SLEEP_BLOCK then s1.(sleeping := s1.sleeping - {r.id}) else s1;
    var s3 := if r.state == READY then s2.(ready := Without(s2.heap, s2.ready, r.id)) else s2;
    if r.id == 0 then s3
    else
      var s4 := if r.terminated then s3 else s3.(threads := s3.threads - {r.id}, count := s3.count - 1);
      s4.(heap := s4.heap - {t}, retired := s4.retired + r.quantum)
  }

  // ---------------------------------------------------------- the scheduler

  /** One quantum less to sleep for thread `tid`, if it sleeps; at zero it
      leaves the map and becomes ready, unless it is also blocked. */
  function TickOne<T(==)>(s: State<T>, tid: int): State<T> {
    if tid !in s.sleeping then s
    else
      var t := s.sleeping[tid];
      var r := s.At(t);
      if r.sleep - 1 != 0 then s.Put(t, r.(sleep := r.sleep - 1))
      else if r.state == SLEEP_BLOCK then
        s.Put(t, r.(sleep := 0, state := BLOCKED)).(sleeping := s.sleeping - {tid})
      else
        s.Put(t, r.(sleep := 0, state := READY)).(sleeping := s.sleeping - {tid}, ready := s.ready + [t])
  }

  /** The sleeping map is walked in the order of thread ids. */
  function TickUpTo<T(==)>(s: State<T>, n: nat): State<T> {
    if n == 0 then s else TickOne(TickUpTo(s, n - 1), n - 1)
  }

  function DeleteOne<T(==)>(s: State<T>, tid: int): State<T> {
    if tid in s.termination then DeleteThread(s, s.termination[tid]) else s
  }

  function DeleteUpTo<T(==)>(s: State<T>, n: nat): State<T> {
    if n == 0 then s else DeleteOne(DeleteUpTo(s, n - 1), n - 1)
  }

  /** Free the threads that terminated before the last switch. */
  function DeletePending<T(==)>(s: State<T>): State<T> {
    DeleteUpTo(s, MAX_THREAD_NUM).(termination := map[])
  }

  /** A running thread that terminated waits in `termination` to be freed. */
  function Retire<T(==)>(s: State<T>): State<T> {
    var r := s.At(s.running);
    if r.terminated && r.id in s.threads then
      s.(termination := s.termination[r.id := s.threads[r.id]], threads := s.threads - {r.id}, count := s.count - 1)
    else s
  }

  /** One more quantum for the running thread, which is now RUNNING. */
  function StartQuantum<T(==)>(s: State<T>): State<T> {
    var r := s.At(s.running);
    s.Put(s.running, r.(quantum := r.quantum + 1, state := RUNNING)).(total := s.total + 1)
  }

  function KeepsTurn(r: Rec): bool {
    !r.terminated && r.state != SLEEP && r.state != BLOCKED && r.state != SLEEP_BLOCK
  }

  /** Whose turn it is next. */
  function Switch<T(==)>(s: State<T>): State<T> {
    var r := s.At(s.running);
    if KeepsTurn(r) && s.ready == [] then StartQuantum(s)
    else
      var s1 := if KeepsTurn(r)
                then s.Put(s.running, r.(state := READY)).(ready := s.ready + [s.running])
                else s;
      if s1.ready == [] then s1
      else StartQuantum(s1.(running := s1.ready[0], ready := s1.ready[1..]))
  }

  function Schedule<T(==)>(s: State<T>): State<T> {
    Switch(Retire(DeletePending(TickUpTo(s, MAX_THREAD_NUM))))
  }

  // -------------------------------------------------------------- the calls

  datatype Op<T> = Spawn(thread: T) | Terminate(tid: int) | Block(tid: int) | Resume(tid: int) | Sleep(quanta: int) | Tick

  datatype Outcome<T> = Outcome(state: State<T>, result: int)

  function Init<T(==)>(main: T): State<T> {
    State(map[main := Rec(RUNNING, 0, 1, 0, false)], map[0 := main], [], [], map[], map[], main, 1, 1, 0)
  }

  function DoSpawn<T(==)>(s: State<T>, t: T): Outcome<T> {
    if s.count >= MAX_THREAD_NUM then Outcome(s, -1)
    else
      var tid := FreeTid(s.threads, 0);
      if tid == MAX_THREAD_NUM then Outcome(s, -1)
      else Outcome(s.Put(t, Rec(READY, tid, 0, 0, false)).(threads := s.threads[tid := t],
                                                           count := s.count + 1,
                                                           ready := s.ready + [t]), tid)
  }

  /** `tid` is not the main thread: that call ends the process. */
  function DoTerminate<T(==)>(s: State<T>, tid: int): Outcome<T> {
    if tid !in s.threads then Outcome(s, -1)
    else
      var t := s.threads[tid];
      var r := s.At(t);
      if r.state == RUNNING then Outcome(Schedule(s.Put(t, r.(terminated := true))), 0)
      else Outcome(DeleteThread(s, t), 0)
  }

  function DoBlock<T(==)>(s: State<T>, tid: int): Outcome<T> {
    if tid !in s.threads || tid == 0 then Outcome(s, -1)
    else
      var t := s.threads[tid];
      var r := s.At(t);
      match r.state
      case RUNNING => Outcome(Schedule(s.Put(t, r.(state := BLOCKED)).(blocked := s.blocked + [t])), 0)
      case SLEEP => Outcome(s.Put(t, r.(state := SLEEP_BLOCK)).(blocked := s.blocked + [t]), 0)
      case READY => Outcome(s.Put(t, r.(state := BLOCKED)).(blocked := s.blocked + [t],
                                                           ready := Without(s.heap, s.ready, tid)), 0)
      case _ => Outcome(s, 0)
  }

  function DoResume<T(==)>(s: State<T>, tid: int): Outcome<T> {
    if tid in s.termination || tid !in s.threads then Outcome(s, -1)
    else
      var i := IndexOf(s.heap, s.blocked, tid);
      if i == |s.blocked| then Outcome(s, 0)
      else
        var t := s.blocked[i];
        var r := s.At(t);
        var s1 := if s.At(s.threads[tid]).state == SLEEP_BLOCK
                  then s.Put(t, r.(state := SLEEP))
                  else s.Put(t, r.(state := READY)).(ready := s.ready + [t]);
        Outcome(s1.(blocked := s.blocked[..i] + s.blocked[i + 1..]), 0)
  }

  function DoSleep<T(==)>(s: State<T>, quanta: int): Outcome<T> {
    var r := s.At(s.running);
    if r.id == 0 || quanta <= 0 then Outcome(s, -1)
    else Outcome(Schedule(s.Put(s.running, r.(state := SLEEP, sleep := quanta + 1))
                           .(sleeping := s.sleeping[r.id := s.running])), 0)
  }

  function Step<T(==)>(s: State<T>, op: Op<T>): Outcome<T> {
    match op
    case Spawn(t) => DoSpawn(s, t)
    case Terminate(tid) => DoTerminate(s, tid)
    case Block(tid) => DoBlock(s, tid)
    case Resume(tid) => DoResume(s, tid)
    case Sleep(quanta) => DoSleep(s, quanta)
    case Tick => Outcome(Schedule(s), 0)
  }
}

/** What holds in every reachable state of the scheduler. */
module SchedulerInvariant {
  import opened SchedulerSpec

  predicate Sleeps(st: Status) {
    st == SLEEP || st == SLEEP_BLOCK
  }

  predicate Blocks(st: Status) {
    st == BLOCKED || st == SLEEP_BLOCK
  }

  /** The thread that currently owns its id. */
  ghost predicate Live<T>(s: State<T>, t: T) {
    t in s.heap && s.heap[t].id in s.threads && s.threads[s.heap[t].id] == t
  }

  /** A thread that ended itself and waits to be freed. */
  ghost predicate Pending<T>(s: State<T>, t: T) {
    t in s.heap && s.heap[t].id in s.termination && s.termination[s.heap[t].id] == t
  }

  ghost predicate NoDup<T>(q: seq<T>) {
    forall i, j :: 0 <= i < j < |q| ==> q[i] != q[j]
  }

  /** The maps agree with the ids in the records. */
  ghost predicate Maps<T>(s: State<T>) {
    && s.count == |s.threads| && 0 in s.threads && |s.termination| <= 1
    && (forall i :: i in s.threads ==> 0 <= i < MAX_THREAD_NUM && s.threads[i] in s.heap && s.heap[s.threads[i]].id == i)
    && (forall i :: i in s.termination ==> 0 < i < MAX_THREAD_NUM && s.termination[i] in s.heap && s.heap[s.termination[i]].id == i)
    && (forall i :: i in s.sleeping ==> i in s.threads && s.sleeping[i] == s.threads[i])
  }

  /** The queues hold live threads, each at most once. */
  ghost predicate Queues<T>(s: State<T>) {
    && NoDup(s.ready) && (forall t :: t in s.ready ==> Live(s, t))
    && NoDup(s.blocked) && (forall t :: t in s.blocked ==> Live(s, t) && Blocks(s.heap[t].state))
  }

  /** A thread object is live or pending, and its state says which structures
      hold it. */
  ghost predicate Placed<T>(s: State<T>, t: T)
    requires t in s.heap
  {
    var r := s.heap[t];
    && (Live(s, t) <==> !Pending(s, t))
    && (Pending(s, t) ==> r.terminated && r.state == RUNNING)
    && (Live(s, t) ==>
          && (r.state == READY <==> t in s.ready)
          && (Sleeps(r.state) <==> r.id in s.sleeping)
          && (Sleeps(r.state) ==> r.sleep > 0)
          && (r.state == RUNNING || r.terminated ==> t == s.running)
          && (r.id == 0 ==> r.state == RUNNING || r.state == READY))
  }

  ghost predicate Core<T>(s: State<T>) {
    Maps(s) && Queues(s) && forall t :: t in s.heap ==> Placed(s, t)
  }

  /** Between calls: exactly one thread is running. */
  ghost predicate Inv<T>(s: State<T>) {
    && Core(s) && Live(s, s.running)
    && s.heap[s.running].state == RUNNING && !s.heap[s.running].terminated
  }

  /** When the scheduler is entered: the running thread may have just blocked,
      gone to sleep or ended. */
  ghost predicate Entered<T>(s: State<T>) {
    && Core(s) && Live(s, s.running)
    && var r := s.heap[s.running];
       && (r.state == RUNNING || r.state == BLOCKED || (r.state == SLEEP && r.sleep >= 2))
       && (r.terminated ==> r.state == RUNNING && r.id != 0)
  }

  // ------------------------------------------- changing one thread's record

  /** `q'` is `q` except for `t`, which is in it exactly if `member`. */
  ghost predicate SameBut<T>(q: seq<T>, q': seq<T>, t: T, member: bool) {
    && NoDup(q')
    && (t in q' <==> member)
    && (forall u :: u in q' && u != t ==> u in q)
    && (forall u :: u in q && u != t ==> u in q')
  }

  /** Only the record of `t` and its place in the queues differ. */
  ghost predicate Changes<T>(s: State<T>, s': State<T>, t: T, r': Rec) {
    && Live(s, t) && r'.id == s.heap[t].id
    && s'.heap == s.heap[t := r']
    && s'.threads == s.threads && s'.termination == s.termination && s'.count == s.count && s'.running == s.running
    && SameBut(s.ready, s'.ready, t, r'.state == READY)
    && SameBut(s.blocked, s'.blocked, t, t in s'.blocked)
    && (t in s'.blocked ==> Blocks(r'.state))
    && s'.sleeping == (if Sleeps(r'.state) then s.sleeping[r'.id := t] else s.sleeping - {r'.id})
    && (Sleeps(r'.state) ==> r'.sleep > 0)
    && (r'.state == RUNNING || r'.terminated ==> t == s.running)
    && (r'.id == 0 ==> r'.state == RUNNING || r'.state == READY)
  }

  lemma LiveSame<T>(s: State<T>, s': State<T>, t: T, r': Rec, u: T)
    requires Live(s, t) && r'.id == s.heap[t].id
    requires s'.heap == s.heap[t := r'] && s'.threads == s.threads && s'.termination == s.termination
    ensures Live(s', u) <==> Live(s, u)
    ensures Pending(s', u) <==> Pending(s, u)
  {
  }

  lemma ChangeQueues<T>(s: State<T>, s': State<T>, t: T, r': Rec)
    requires Maps(s) && Queues(s) && Changes(s, s', t, r')
    ensures Maps(s') && Queues(s')
  {
    hide SameBut, Live, Blocks;
    ChangeMaps(s, s', t, r');
    ChangeListed(s, s', t, r');
  }

  lemma ChangeMaps<T>(s: State<T>, s': State<T>, t: T, r': Rec)
    requires Maps(s) && Changes(s, s', t, r')
    ensures Maps(s')
  {
    hide SameBut;
    LiveAllocated(s, t);
    hide Live;
  }

  lemma LiveAllocated<T>(s: State<T>, t: T)
    requires Live(s, t)
    ensures t in s.heap && s.heap[t].id in s.threads && s.threads[s.heap[t].id] == t
  {
  }

  lemma ChangeListed<T>(s: State<T>, s': State<T>, t: T, r': Rec)
    requires Queues(s) && Changes(s, s', t, r')
    ensures Queues(s')
  {
    forall u | u in s'.ready ensures Live(s', u) {
      LiveSame(s, s', t, r', u);
    }
    forall u | u in s'.blocked ensures Live(s', u) && Blocks(s'.heap[u].state) {
      LiveSame(s, s', t, r', u);
    }
  }

  lemma ChangePlaced<T>(s: State<T>, s': State<T>, t: T, r': Rec, u: T)
    requires Core(s) && Changes(s, s', t, r') && u in s.heap
    ensures Placed(s', u)
  {
    assert Placed(s, u) && Placed(s, t);
    hide Core;
    if u == t {
      ChangedPlaced(s, s', t, r');
    } else {
      OtherPlaced(s, s', t, r', u);
    }
  }

  lemma ChangedPlaced<T>(s: State<T>, s': State<T>, t: T, r': Rec)
    requires t in s.heap && Placed(s, t) && Changes(s, s', t, r')
    ensures Placed(s', t)
  {
    hide Live, Pending;
    LiveAllocated(s, t);
    LiveSame(s, s', t, r', t);
  }

  lemma OtherPlaced<T>(s: State<T>, s': State<T>, t: T, r': Rec, u: T)
    requires u in s.heap && Placed(s, u) && Changes(s, s', t, r') && u != t
    ensures Placed(s', u)
  {
    hide Live, Pending, Sleeps;
    LiveAllocated(s, t);
    LiveSame(s, s', t, r', u);
    if Live(s, u) {
      LiveAllocated(s, u);
    }
  }

  lemma ChangeCore<T>(s: State<T>, s': State<T>, t: T, r': Rec)
    requires Core(s) && Changes(s, s', t, r')
    ensures Core(s')
    ensures forall u :: Live(s', u) <==> Live(s, u)
  {
    hide *;
    CoreParts(s);
    ChangesKeys(s, s', t, r');
    ChangeQueues(s, s', t, r');
    forall u | u in s'.heap ensures Placed(s', u) {
      ChangePlaced(s, s', t, r', u);
    }
    forall u ensures Live(s', u) <==> Live(s, u) {
      LiveSame(s, s', t, r', u);
    }
    CoreOf(s');
  }

  lemma ChangesKeys<T>(s: State<T>, s': State<T>, t: T, r': Rec)
    requires Changes(s, s', t, r')
    ensures s'.heap.Keys == s.heap.Keys && Live(s, t) && r'.id == s.heap[t].id
    ensures s'.heap == s.heap[t := r'] && s'.threads == s.threads && s'.termination == s.termination
  {
  }

  lemma CoreParts<T>(s: State<T>)
    requires Core(s)
    ensures Maps(s) && Queues(s) && forall t :: t in s.heap ==> Placed(s, t)
  {
  }

  lemma CoreOf<T>(s: State<T>)
    requires Maps(s) && Queues(s) && forall t :: t in s.heap ==> Placed(s, t)
    ensures Core(s)
  {
  }

  // ----------------------------------------------------------- sleeping threads

  /** The part of the state that waking sleepers leaves alone. */
  ghost predicate OnlyWakes<T>(s: State<T>, s': State<T>, n: nat) {
    && s'.heap.Keys == s.heap.Keys && s'.threads == s.threads && s'.termination == s.termination
    && s'.blocked == s.blocked && s'.running == s.running
    && s'.total == s.total && s'.count == s.count && s'.retired == s.retired
    && s.ready <= s'.ready
    && (forall t :: t in s.heap ==> s'.heap[t] == Woken(s, t, n))
  }

  /** The record of `t` after sleepers with ids below `n` were ticked. */
  ghost function Woken<T>(s: State<T>, t: T, n: nat): Rec
    requires t in s.heap
  {
    var r := s.heap[t];
    if r.id in s.sleeping && s.sleeping[r.id] == t && r.id < n then
      r.(sleep := r.sleep - 1,
         state := if r.sleep - 1 != 0 then r.state else if r.state == SLEEP_BLOCK then BLOCKED else READY)
    else r
  }

  lemma Appended<T>(q: seq<T>, t: T)
    requires NoDup(q) && t !in q
    ensures SameBut(q, q + [t], t, true)
  {
  }

  lemma Kept<T>(q: seq<T>, t: T)
    requires NoDup(q)
    ensures SameBut(q, q, t, t in q)
  {
  }

  lemma TickOneCore<T>(s: State<T>, i: nat)
    requires Core(s) && Live(s, s.running)
    requires Sleeps(s.heap[s.running].state) ==> s.heap[s.running].id != i || s.heap[s.running].sleep >= 2
    ensures Core(TickOne(s, i))
  {
    if i in s.sleeping {
      hide *;
      TickOneChanges(s, i);
      ChangeCore(s, TickOne(s, i), s.sleeping[i], TickOne(s, i).At(s.sleeping[i]));
    } else {
      assert TickOne(s, i) == s;
    }
  }

  lemma SleeperPlaced<T>(s: State<T>, i: int)
    requires Core(s) && i in s.sleeping
    ensures var t := s.sleeping[i];
            && Live(s, t) && s.heap[t].id == i && i != 0 && Sleeps(s.heap[t].state) && s.heap[t].sleep > 0
            && t !in s.ready && NoDup(s.ready) && NoDup(s.blocked) && s.sleeping[i := t] == s.sleeping
            && (s.heap[t].terminated ==> t == s.running)
            && (t in s.blocked ==> s.heap[t].state == SLEEP_BLOCK)
  {
    assert Placed(s, s.sleeping[i]);
  }

  lemma TickOneChanges<T>(s: State<T>, i: nat)
    requires Core(s) && Live(s, s.running) && i in s.sleeping
    requires Sleeps(s.heap[s.running].state) ==> s.heap[s.running].id != i || s.heap[s.running].sleep >= 2
    ensures var t, s' := s.sleeping[i], TickOne(s, i);
            Changes(s, s', t, s'.At(t))
  {
    hide Core, SameBut, NoDup;
    var t := s.sleeping[i];
    SleeperPlaced(s, i);
    Kept(s.blocked, t);
    Kept(s.ready, t);
    Appended(s.ready, t);
  }

  /** Who is still asleep after sleepers with ids below `n` were ticked. */
  ghost predicate StillAsleep<T>(s: State<T>, s': State<T>, n: nat) {
    && (forall i :: i in s.sleeping ==> s.sleeping[i] in s.heap && s.heap[s.sleeping[i]].id == i)
    && (forall i :: i in s'.sleeping ==> i in s.sleeping && s'.sleeping[i] == s.sleeping[i])
    && (forall i :: i in s.sleeping && i !in s'.sleeping ==> i < n && s.heap[s.sleeping[i]].sleep == 1)
    && (forall i :: i in s'.sleeping && i < n ==> s.heap[s.sleeping[i]].sleep != 1)
  }

  lemma TickOneEffect<T>(s: State<T>, mid: State<T>, n: nat)
    requires OnlyWakes(s, mid, n) && StillAsleep(s, mid, n)
    ensures OnlyWakes(s, TickOne(mid, n), n + 1)
  {
    var s' := TickOne(mid, n);
    if n in mid.sleeping {
      var t := s.sleeping[n];
      assert mid.heap[t] == Woken(s, t, n) == s.heap[t];
      forall u | u in s.heap ensures s'.heap[u] == Woken(s, u, n + 1) {
        if u != t {
          assert s'.heap[u] == mid.heap[u] == Woken(s, u, n);
        }
      }
    } else {
      forall u | u in s.heap ensures Woken(s, u, n + 1) == Woken(s, u, n) {
      }
    }
  }

  lemma TickOneAsleep<T>(s: State<T>, mid: State<T>, n: nat)
    requires OnlyWakes(s, mid, n) && StillAsleep(s, mid, n)
    ensures StillAsleep(s, TickOne(mid, n), n + 1)
  {
    if n in mid.sleeping {
      assert mid.heap[s.sleeping[n]] == Woken(s, s.sleeping[n], n);
    }
  }

  lemma TickNone<T>(s: State<T>)
    requires Maps(s)
    ensures OnlyWakes(s, s, 0) && StillAsleep(s, s, 0)
  {
    forall t | t in s.heap && s.heap[t].id in s.sleeping ensures s.heap[t].id >= 0 {
    }
  }

  lemma UpTo<T>(s: State<T>, n: nat)
    ensures TickUpTo(s, 0) == s
    ensures TickUpTo(s, n + 1) == TickOne(TickUpTo(s, n), n)
  {
  }

  lemma {:induction false} TickEffect<T>(s: State<T>, n: nat)
    requires Maps(s)
    ensures OnlyWakes(s, TickUpTo(s, n), n) && StillAsleep(s, TickUpTo(s, n), n)
  {
    hide *;
    if n == 0 {
      UpTo(s, 0);
      TickNone(s);
    } else {
      UpTo(s, n - 1);
      TickEffect(s, n - 1);
      TickOneEffect(s, TickUpTo(s, n - 1), n - 1);
      TickOneAsleep(s, TickUpTo(s, n - 1), n - 1);
    }
  }

  lemma EnteredCore<T>(s: State<T>)
    requires Entered(s)
    ensures Core(s) && Maps(s) && Live(s, s.running)
  {
  }

  lemma {:induction false} TickCore<T>(s: State<T>, n: nat)
    requires Entered(s)
    ensures Core(TickUpTo(s, n)) && OnlyWakes(s, TickUpTo(s, n), n)
  {
    hide *;
    EnteredCore(s);
    TickEffect(s, n);
    if n == 0 {
      UpTo(s, 0);
    } else {
      UpTo(s, n - 1);
      TickCore(s, n - 1);
      RunnerAsleep(s, TickUpTo(s, n - 1), n - 1);
      TickOneCore(TickUpTo(s, n - 1), n - 1);
    }
  }

  lemma RunnerAsleep<T>(s: State<T>, mid: State<T>, n: nat)
    requires Entered(s) && OnlyWakes(s, mid, n) && Core(mid)
    ensures Live(mid, mid.running)
    ensures var r := mid.heap[mid.running];
            Sleeps(r.state) ==> r.id != n || r.sleep >= 2
  {
    assert Placed(s, s.running);
    assert mid.heap[s.running] == Woken(s, s.running, n);
  }

  // -------------------------------------------------------- freeing a thread

  lemma AtMostOne<A, B>(m: map<A, B>, a: A, b: A)
    requires |m| <= 1 && a in m && b in m
    ensures a == b
  {
    if a != b {
      assert {a, b} <= m.Keys;
      Smaller({a, b}, m.Keys);
    }
  }

  lemma {:induction false} Smaller<A>(a: set<A>, b: set<A>)
    requires a <= b
    ensures |a| <= |b|
  {
    if a != {} {
      var x :| x in a;
      Smaller(a - {x}, b - {x});
      assert b == (b - {x}) + {x} && a == (a - {x}) + {x};
    }
  }

  lemma Erased<T>(heap: map<T, Rec>, q: seq<T>, tid: int)
    requires NoDup(q)
    ensures var q', i := EraseFirst(heap, q, tid), IndexOf(heap, q, tid);
            && NoDup(q')
            && forall t :: t in q' <==> t in q && (i < |q| ==> t != q[i])
  {
    hide IndexOf, NoDup;
    var i := IndexOf(heap, q, tid);
    if i < |q| {
      CutAt(q, i);
    }
  }

  lemma CutAt<T>(q: seq<T>, i: nat)
    requires NoDup(q) && i < |q|
    ensures NoDup(q[..i] + q[i + 1..])
    ensures forall t :: t in q[..i] + q[i + 1..] <==> t in q && t != q[i]
  {
    assert q == q[..i] + [q[i]] + q[i + 1..];
  }

  lemma {:induction false} Dropped<T>(heap: map<T, Rec>, q: seq<T>, tid: int)
    requires NoDup(q)
    ensures NoDup(Without(heap, q, tid))
    ensures forall t :: t in Without(heap, q, tid) ==> t in q && !(t in heap && heap[t].id == tid)
    ensures forall t :: t in q && !(t in heap && heap[t].id == tid) ==> t in Without(heap, q, tid)
  {
    if q != [] {
      Dropped(heap, q[1..], tid);
      assert q == [q[0]] + q[1..];
    }
  }

  /** The state after the pending thread `t` was freed. The blocked list loses
      the first entry with its id, whoever that entry is. */
  ghost predicate Freed<T>(s: State<T>, s': State<T>, t: T) {
    && Pending(s, t)
    && s' == s.(heap := s.heap - {t}, termination := map[],
                blocked := EraseFirst(s.heap, s.blocked, s.heap[t].id),
                retired := s.retired + s.heap[t].quantum)
  }

  lemma {:induction false} DeleteUpToIs<T>(s: State<T>, n: nat, k: int)
    requires |s.termination| <= 1
    ensures k in s.termination && 0 <= k < n ==> DeleteUpTo(s, n) == DeleteThread(s, s.termination[k])
    ensures (forall i :: i in s.termination ==> i >= n) ==> DeleteUpTo(s, n) == s
  {
    if n > 0 {
      DeleteUpToIs(s, n - 1, k);
      hide DeleteThread;
      if k in s.termination && n - 1 in s.termination {
        AtMostOne(s.termination, k, n - 1);
      }
      if k in s.termination && k == n - 1 {
        forall i | i in s.termination ensures i >= n - 1 {
          AtMostOne(s.termination, k, i);
        }
      }
    }
  }

  lemma DeletePendingIs<T>(s: State<T>)
    requires Core(s)
    ensures s.termination == map[] ==> DeletePending(s) == s
    ensures s.termination != map[] ==> exists t :: Freed(s, DeletePending(s), t)
  {
    hide DeleteUpTo, Queues;
    DeleteUpToIs(s, MAX_THREAD_NUM, 0);
    if k :| k in s.termination {
      DeleteUpToIs(s, MAX_THREAD_NUM, k);
      PendingPlaced(s, k);
      FreedByDelete(s, s.termination[k]);
      assert Freed(s, DeletePending(s), s.termination[k]);
    } else {
      assert forall i :: i !in s.termination.Keys;
      assert s.termination.Keys == {};
    }
  }

  lemma PendingPlaced<T>(s: State<T>, k: int)
    requires Core(s) && k in s.termination
    ensures var t := s.termination[k];
            0 < k < MAX_THREAD_NUM && Pending(s, t) && s.heap[t].id == k && s.heap[t].terminated && s.heap[t].state == RUNNING
  {
    assert Placed(s, s.termination[k]);
  }

  lemma FreedByDelete<T>(s: State<T>, t: T)
    requires Pending(s, t) && s.heap[t].id != 0 && s.heap[t].terminated && s.heap[t].state == RUNNING
    ensures Freed(s, DeleteThread(s, t).(termination := map[]), t)
  {
    hide EraseFirst, Without;
  }

  lemma FreedOthers<T>(s: State<T>, s': State<T>, t: T, u: T)
    requires Core(s) && Freed(s, s', t)
    ensures Live(s', u) <==> Live(s, u)
    ensures u in s'.heap ==> u != t && !Pending(s', u) && !Pending(s, u) && s'.heap[u] == s.heap[u]
  {
    hide EraseFirst;
    assert Placed(s, t);
    if u in s'.heap && Pending(s, u) {
      AtMostOne(s.termination, s.heap[t].id, s.heap[u].id);
      assert false;
    }
  }

  lemma FreedPlaced<T>(s: State<T>, s': State<T>, t: T, u: T)
    requires Core(s) && Freed(s, s', t) && u in s'.heap
    ensures Placed(s', u)
  {
    hide EraseFirst;
    assert Placed(s, u);
    FreedOthers(s, s', t, u);
  }

  lemma FreedQueues<T>(s: State<T>, s': State<T>, t: T)
    requires Core(s) && Freed(s, s', t)
    ensures Maps(s') && Queues(s')
  {
    assert Placed(s, t);
    Erased(s.heap, s.blocked, s.heap[t].id);
    forall u ensures Live(s', u) <==> Live(s, u) {
      FreedOthers(s, s', t, u);
    }
    FreedMaps(s, s', t);
    hide EraseFirst, IndexOf, Maps, Placed, Pending;
  }

  lemma FreedMaps<T>(s: State<T>, s': State<T>, t: T)
    requires Core(s) && Freed(s, s', t)
    ensures Maps(s')
  {
    hide EraseFirst, Queues;
    assert Placed(s, t);
    forall i | i in s.threads ensures s.threads[i] != t {
      assert s.heap[s.threads[i]].id == i;
    }
  }

  lemma FreedCore<T>(s: State<T>, s': State<T>, t: T)
    requires Core(s) && Freed(s, s', t)
    ensures Core(s')
    ensures forall u :: Live(s', u) <==> Live(s, u)
  {
    hide *;
    FreedQueues(s, s', t);
    forall u | u in s'.heap ensures Placed(s', u) {
      FreedPlaced(s, s', t, u);
    }
    forall u ensures Live(s', u) <==> Live(s, u) {
      FreedOthers(s, s', t, u);
    }
    CoreOf(s');
  }

  lemma PendingGone<T>(s: State<T>)
    requires Core(s)
    ensures var s' := DeletePending(s);
            && Core(s') && s'.termination == map[]
            && s'.threads == s.threads && s'.ready == s.ready && s'.running == s.running
            && (forall u :: Live(s', u) <==> Live(s, u))
            && (forall u :: Live(s, u) ==> s'.heap[u] == s.heap[u])
  {
    DeletePendingIs(s);
    if s.termination != map[] {
      var t :| Freed(s, DeletePending(s), t);
      FreedCore(s, DeletePending(s), t);
      assert Placed(s, t);
    }
  }

  // --------------------------------------------------------- ending and switching

  /** A running thread that ended waits in `termination`; no live thread runs. */
  lemma RetireCore<T>(s: State<T>)
    requires Core(s) && s.termination == map[] && Live(s, s.running)
    requires s.heap[s.running].terminated ==> s.heap[s.running].state == RUNNING && s.heap[s.running].id != 0
    ensures var s' := Retire(s);
            && Core(s')
            && s'.heap == s.heap && s'.ready == s.ready && s'.running == s.running && s'.blocked == s.blocked
            && (s.heap[s.running].terminated ==> Pending(s', s.running) && !Live(s', s.running))
            && (!s.heap[s.running].terminated ==> s' == s)
            && (forall u :: u != s.running ==> (Live(s', u) <==> Live(s, u)))
  {
    hide *;
    RetireIs(s);
    if s.heap[s.running].terminated {
      CoreParts(s);
      RunnerPlaced(s);
      RetireMaps(s);
      forall u | u in s.heap
        ensures u in Retire(s).heap && Placed(Retire(s), u) && (u != s.running ==> (Live(Retire(s), u) <==> Live(s, u)))
      {
        RetirePlaced(s, u);
      }
      RetireQueues(s);
      CoreOf(Retire(s));
      RetireLive(s);
    }
  }

  lemma RunnerPlaced<T>(s: State<T>)
    requires Core(s) && Live(s, s.running) && s.heap[s.running].terminated && s.heap[s.running].state == RUNNING
    ensures s.running !in s.ready && s.running !in s.blocked && s.heap[s.running].id !in s.sleeping
    ensures Maps(s) && Queues(s)
  {
    assert Placed(s, s.running);
  }

  lemma RetireIs<T>(s: State<T>)
    requires Live(s, s.running)
    ensures s.running in s.heap
    ensures !s.heap[s.running].terminated ==> Retire(s) == s
    ensures var r := s.heap[s.running];
            s.heap[s.running].terminated ==>
              Retire(s) == s.(termination := s.termination[r.id := s.running], threads := s.threads - {r.id}, count := s.count - 1)
  {
  }

  lemma RetireMaps<T>(s: State<T>)
    requires Maps(s) && Live(s, s.running) && s.termination == map[]
    requires s.heap[s.running].terminated && s.heap[s.running].id != 0 && s.heap[s.running].id !in s.sleeping
    ensures Maps(Retire(s))
  {
    hide Retire;
    RetireIs(s);
    var tid := s.heap[s.running].id;
    MapLess(s.threads, tid);
    assert |map[tid := s.running]| == 1;
  }

  lemma RetireLive<T>(s: State<T>)
    requires Live(s, s.running) && s.heap[s.running].terminated
    ensures forall u :: u != s.running ==> (Live(Retire(s), u) <==> Live(s, u))
    ensures Pending(Retire(s), s.running) && !Live(Retire(s), s.running)
  {
    hide Retire;
    RetireIs(s);
  }

  lemma RetirePlaced<T>(s: State<T>, u: T)
    requires Core(s) && Live(s, s.running) && s.termination == map[] && u in s.heap
    requires s.heap[s.running].terminated && s.heap[s.running].state == RUNNING
    ensures u in Retire(s).heap && Placed(Retire(s), u)
    ensures u != s.running ==> (Live(Retire(s), u) <==> Live(s, u))
  {
    assert Placed(s, u);
    hide Retire, Core;
    RetireIs(s);
  }

  lemma RetireQueues<T>(s: State<T>)
    requires Queues(s) && Live(s, s.running) && s.heap[s.running].terminated
    requires s.running !in s.ready && s.running !in s.blocked
    ensures Queues(Retire(s))
  {
    hide Retire;
    RetireIs(s);
    RetireLive(s);
    hide Live;
  }

  /** The main thread is runnable, so a forced switch finds someone to run. */
  lemma SomeoneReady<T>(s: State<T>)
    requires Core(s)
    requires Live(s, s.running) ==> s.heap[s.running].state != RUNNING && s.heap[s.running].state != READY
    ensures s.ready != []
  {
    var main := s.threads[0];
    assert Placed(s, main);
    assert main in s.ready;
  }

  lemma Handover<T>(s: State<T>)
    requires Core(s) && s.ready != []
    requires forall t :: Live(s, t) ==> s.heap[t].state != RUNNING && !s.heap[t].terminated
    ensures var s' := StartQuantum(s.(running := s.ready[0], ready := s.ready[1..]));
            Inv(s') && forall u :: Live(s', u) <==> Live(s, u)
  {
    var f := s.ready[0];
    var s1 := s.(running := f);
    var s' := StartQuantum(s.(running := f, ready := s.ready[1..]));
    SameCore(s, s1);
    HandoverChanges(s);
    hide *;
    ChangeCore(s1, s', f, s'.heap[f]);
    HandoverInv(s', f);
  }

  /** When nobody is RUNNING it does not matter whose turn it was. */
  lemma SameCore<T>(s: State<T>, s1: State<T>)
    requires Core(s) && s1 == s.(running := s1.running)
    requires forall t :: Live(s, t) ==> s.heap[t].state != RUNNING && !s.heap[t].terminated
    ensures Core(s1) && forall u :: Live(s1, u) <==> Live(s, u)
  {
    forall t | t in s1.heap ensures Placed(s1, t) {
      assert Placed(s, t);
    }
  }

  lemma HandoverChanges<T>(s: State<T>)
    requires Core(s) && s.ready != []
    requires forall t :: Live(s, t) ==> s.heap[t].state != RUNNING && !s.heap[t].terminated
    ensures var f := s.ready[0];
            var s' := StartQuantum(s.(running := f, ready := s.ready[1..]));
            && f in s'.heap && Changes(s.(running := f), s', f, s'.heap[f])
            && s'.running == f && s'.heap[f].state == RUNNING && !s'.heap[f].terminated
  {
    hide Core, SameBut, Without, NoDup;
    var f := s.ready[0];
    ReadyPlaced(s, f);
    TookFirst(s.ready);
    Kept(s.blocked, f);
  }

  lemma ReadyPlaced<T>(s: State<T>, f: T)
    requires Core(s) && f in s.ready
    ensures Live(s, f) && s.heap[f].state == READY && f !in s.blocked && NoDup(s.ready) && NoDup(s.blocked)
    ensures s.heap[f].id !in s.sleeping && s.sleeping - {s.heap[f].id} == s.sleeping
  {
    assert Live(s, f) && Placed(s, f);
  }

  lemma HandoverInv<T>(s: State<T>, f: T)
    requires Core(s) && Live(s, f) && s.running == f && s.heap[f].state == RUNNING && !s.heap[f].terminated
    ensures Inv(s)
  {
  }

  lemma TookFirst<T>(q: seq<T>)
    requires q != [] && NoDup(q)
    ensures SameBut(q, q[1..], q[0], false)
  {
    forall u | u in q && u != q[0] ensures u in q[1..] {
      var k :| 0 <= k < |q| && q[k] == u;
      assert q[1..][k - 1] == u;
    }
  }

  // ------------------------------------------------------- the whole scheduler

  lemma Switched<T>(s: State<T>)
    requires Core(s) && s.running in s.heap
    requires var r := s.heap[s.running];
             if Live(s, s.running)
             then !r.terminated && (r.state == RUNNING || r.state == BLOCKED || r.state == SLEEP)
             else r.terminated
    ensures Inv(Switch(s))
    ensures forall u :: Live(Switch(s), u) <==> Live(s, u)
  {
    hide *;
    var r := s.heap[s.running];
    SwitchIs(s);
    TurnCases(s);
    if !KeepsTurn(r) {
      SomeoneReady(s);
      NoneRuns(s);
      Handover(s);
    } else if s.ready == [] {
      Continues(s);
    } else {
      Requeues(s);
      var s1 := s.Put(s.running, r.(state := READY)).(ready := s.ready + [s.running]);
      NoneRuns(s1);
      Handover(s1);
    }
  }

  lemma TurnCases<T>(s: State<T>)
    requires s.running in s.heap
    requires var r := s.heap[s.running];
             if Live(s, s.running)
             then !r.terminated && (r.state == RUNNING || r.state == BLOCKED || r.state == SLEEP)
             else r.terminated
    ensures var r := s.heap[s.running];
            if KeepsTurn(r) then Live(s, s.running) && r.state == RUNNING && !r.terminated
            else Live(s, s.running) ==> r.state != RUNNING && r.state != READY && !r.terminated
  {
  }

  lemma SwitchIs<T>(s: State<T>)
    requires s.running in s.heap
    ensures var r := s.heap[s.running];
            var s1 := s.Put(s.running, r.(state := READY)).(ready := s.ready + [s.running]);
            Switch(s) ==
              if !KeepsTurn(r) then
                if s.ready == [] then s else StartQuantum(s.(running := s.ready[0], ready := s.ready[1..]))
              else if s.ready == [] then StartQuantum(s)
              else StartQuantum(s1.(running := s1.ready[0], ready := s1.ready[1..]))
  {
    hide StartQuantum, KeepsTurn;
  }

  lemma Continues<T>(s: State<T>)
    requires Core(s) && Live(s, s.running) && s.ready == []
    requires s.heap[s.running].state == RUNNING && !s.heap[s.running].terminated
    ensures Inv(StartQuantum(s)) && forall u :: Live(StartQuantum(s), u) <==> Live(s, u)
  {
    hide Core, SameBut, NoDup;
    var t, s' := s.running, StartQuantum(s);
    RunnerFree(s);
    Kept(s.ready, t);
    Kept(s.blocked, t);
    assert Changes(s, s', t, s'.heap[t]);
    ChangeCore(s, s', t, s'.heap[t]);
  }

  lemma RunnerFree<T>(s: State<T>)
    requires Core(s) && Live(s, s.running) && s.heap[s.running].state == RUNNING
    ensures s.running !in s.ready && s.running !in s.blocked && NoDup(s.ready) && NoDup(s.blocked)
    ensures s.heap[s.running].id !in s.sleeping && s.sleeping - {s.heap[s.running].id} == s.sleeping
  {
    assert Placed(s, s.running);
  }

  lemma Requeues<T>(s: State<T>)
    requires Core(s) && Live(s, s.running)
    requires s.heap[s.running].state == RUNNING && !s.heap[s.running].terminated
    ensures var s1 := s.Put(s.running, s.heap[s.running].(state := READY)).(ready := s.ready + [s.running]);
            && Core(s1) && s1.ready != [] && s1.running == s.running && s.running in s1.heap
            && s1.heap[s.running].state == READY && !s1.heap[s.running].terminated
            && forall u :: Live(s1, u) <==> Live(s, u)
  {
    hide Core, SameBut, NoDup;
    var t := s.running;
    var r := s.heap[t];
    var s1 := s.Put(t, r.(state := READY)).(ready := s.ready + [t]);
    RunnerFree(s);
    Appended(s.ready, t);
    Kept(s.blocked, t);
    assert Changes(s, s1, t, r.(state := READY));
    ChangeCore(s, s1, t, r.(state := READY));
  }

  lemma NoneRuns<T>(s: State<T>)
    requires Core(s) && s.running in s.heap
    requires Live(s, s.running) ==> s.heap[s.running].state != RUNNING && !s.heap[s.running].terminated
    ensures forall t :: Live(s, t) ==> s.heap[t].state != RUNNING && !s.heap[t].terminated
  {
    forall t | Live(s, t) ensures s.heap[t].state != RUNNING && !s.heap[t].terminated {
      assert Placed(s, t);
    }
  }

  /** Entering the scheduler always ends with one running thread and every
      structure in order. */
  lemma ScheduleInv<T>(s: State<T>)
    requires Entered(s)
    ensures Inv(Schedule(s))
    ensures forall u :: u != s.running ==> (Live(Schedule(s), u) <==> Live(s, u))
    ensures Live(Schedule(s), s.running) <==> !s.heap[s.running].terminated
  {
    hide *;
    var s1 := TickUpTo(s, MAX_THREAD_NUM);
    var s2 := DeletePending(s1);
    var s3 := Retire(s2);
    TickCore(s, MAX_THREAD_NUM);
    WokenRunner(s, s1);
    PendingGone(s1);
    RetireCore(s2);
    LiveAllocated(s2, s2.running);
    Switched(s3);
    ScheduleIs(s);
  }

  lemma ScheduleIs<T>(s: State<T>)
    ensures Schedule(s) == Switch(Retire(DeletePending(TickUpTo(s, MAX_THREAD_NUM))))
  {
  }

  lemma WokenRunner<T>(s: State<T>, s1: State<T>)
    requires Entered(s) && Core(s1) && OnlyWakes(s, s1, MAX_THREAD_NUM)
    ensures s1.running == s.running && Live(s, s.running) && Live(s1, s.running)
    ensures forall u :: Live(s1, u) <==> Live(s, u)
    ensures var r, r1 := s.heap[s.running], s1.heap[s.running];
            && r1.terminated == r.terminated && r1.state == r.state && r1.id == r.id
            && (r.state == RUNNING || r.state == BLOCKED || r.state == SLEEP)
            && (r.terminated ==> r.state == RUNNING && r.id != 0)
  {
    assert Placed(s, s.running);
    assert s1.heap[s.running] == Woken(s, s.running, MAX_THREAD_NUM);
    forall u ensures Live(s1, u) <==> Live(s, u) {
      if u in s.heap {
        assert s1.heap[u] == Woken(s, u, MAX_THREAD_NUM);
      }
    }
  }

  // ------------------------------------------------------------------- the calls

  /** With fewer threads than ids, a free id is found. */
  lemma FreeTidFound<T>(threads: map<int, T>)
    requires |threads| < MAX_THREAD_NUM
    ensures FreeTid(threads, 0) < MAX_THREAD_NUM
  {
    hide *;
    if FreeTid(threads, 0) == MAX_THREAD_NUM {
      AllIdsTaken(threads, MAX_THREAD_NUM);
    }
  }

  lemma AllIdsTaken<T>(threads: map<int, T>, n: nat)
    requires forall k: int :: 0 <= k < n ==> k in threads
    ensures |threads| >= n
  {
    IdsBelow(n);
    forall i | i in Ids(n) ensures i in threads.Keys {
    }
    Smaller(Ids(n), threads.Keys);
    assert |threads.Keys| == |threads|;
  }

  function Ids(n: nat): set<int> {
    if n == 0 then {} else Ids(n - 1) + {n - 1}
  }

  lemma {:induction false} IdsBelow(n: nat)
    ensures |Ids(n)| == n && forall i :: i in Ids(n) <==> 0 <= i < n
  {
    if n > 0 {
      IdsBelow(n - 1);
    }
  }

  lemma SpawnInv<T>(s: State<T>, t: T)
    requires Inv(s) && t !in s.heap
    ensures Inv(DoSpawn(s, t).state)
  {
    if s.count < MAX_THREAD_NUM {
      hide *;
      InvCore(s);
      SpawnIsSpawned(s, t);
      var tid, s' := FreeTid(s.threads, 0), DoSpawn(s, t).state;
      SpawnLive(s, s', t, tid);
      SpawnQueues(s, s', t, tid);
      forall u | u in s'.heap ensures Placed(s', u) {
        SpawnPlaced(s, s', t, tid, u);
      }
      CoreOf(s');
      SpawnRunner(s, s', t, tid);
    } else {
      assert DoSpawn(s, t).state == s;
    }
  }

  lemma SpawnIsSpawned<T>(s: State<T>, t: T)
    requires Core(s) && t !in s.heap && s.count < MAX_THREAD_NUM
    ensures Spawned(s, DoSpawn(s, t).state, t, FreeTid(s.threads, 0))
  {
    FreeTidFound(s.threads);
  }

  lemma SpawnQueues<T>(s: State<T>, s': State<T>, t: T, tid: nat)
    requires Core(s) && Spawned(s, s', t, tid)
    ensures Maps(s') && Queues(s')
  {
    SpawnLive(s, s', t, tid);
    hide Placed, Core, FreeTid;
    CoreParts(s);
    QueuesLive(s);
    SpawnMaps(s, s', t, tid);
  }

  lemma QueuesLive<T>(s: State<T>)
    requires Queues(s)
    ensures forall t :: t in s.ready ==> t in s.heap && Live(s, t)
    ensures forall t :: t in s.blocked ==> t in s.heap && Live(s, t)
  {
  }

  lemma SpawnMaps<T>(s: State<T>, s': State<T>, t: T, tid: nat)
    requires Maps(s) && Spawned(s, s', t, tid)
    ensures Maps(s')
  {
  }

  lemma SpawnRunner<T>(s: State<T>, s': State<T>, t: T, tid: nat)
    requires Inv(s) && Core(s') && Spawned(s, s', t, tid)
    ensures Inv(s')
  {
    SpawnLive(s, s', t, tid);
  }

  ghost predicate Spawned<T>(s: State<T>, s': State<T>, t: T, tid: nat) {
    && t !in s.heap && tid !in s.threads && tid < MAX_THREAD_NUM
    && s' == s.Put(t, Rec(READY, tid, 0, 0, false)).(threads := s.threads[tid := t],
                                                     count := s.count + 1, ready := s.ready + [t])
  }

  lemma SpawnLive<T>(s: State<T>, s': State<T>, t: T, tid: nat)
    requires Core(s) && Spawned(s, s', t, tid)
    ensures forall u :: Live(s', u) <==> Live(s, u) || u == t
    ensures forall u :: Pending(s', u) <==> Pending(s, u)
  {
  }

  lemma SpawnPlaced<T>(s: State<T>, s': State<T>, t: T, tid: nat, u: T)
    requires Core(s) && Spawned(s, s', t, tid) && u in s'.heap
    ensures Placed(s', u)
  {
    SpawnLive(s, s', t, tid);
    if u in s.heap {
      assert Placed(s, u);
    }
  }

  /** Freeing a thread that is not running takes it out of every structure. */
  ghost predicate Removed<T>(s: State<T>, s': State<T>, t: T) {
    && Live(s, t)
    && s'.heap == s.heap - {t} && s'.threads == s.threads - {s.heap[t].id} && s'.count == s.count - 1
    && s'.sleeping == s.sleeping - {s.heap[t].id} && s'.termination == s.termination && s'.running == s.running
    && SameBut(s.ready, s'.ready, t, false) && SameBut(s.blocked, s'.blocked, t, false)
    && s'.total == s.total && s'.retired == s.retired + s.heap[t].quantum
  }

  /** Ids in the blocked list are distinct, so erasing by id erases `t`. */
  lemma EraseLive<T>(s: State<T>, t: T)
    requires Core(s) && Live(s, t)
    ensures SameBut(s.blocked, EraseFirst(s.heap, s.blocked, s.heap[t].id), t, false)
    ensures var i := IndexOf(s.heap, s.blocked, s.heap[t].id);
            if i < |s.blocked| then s.blocked[i] == t else t !in s.blocked
  {
    var tid := s.heap[t].id;
    Erased(s.heap, s.blocked, tid);
    var i := IndexOf(s.heap, s.blocked, tid);
    hide EraseFirst, IndexOf;
    if i < |s.blocked| {
      assert Live(s, s.blocked[i]);
    }
  }

  lemma DropLive<T>(s: State<T>, t: T)
    requires Core(s) && Live(s, t)
    ensures SameBut(s.ready, Without(s.heap, s.ready, s.heap[t].id), t, false)
  {
    var q' := Without(s.heap, s.ready, s.heap[t].id);
    Dropped(s.heap, s.ready, s.heap[t].id);
    forall u | u in s.ready && u != t ensures u in q' {
      assert Live(s, u);
      assert s.heap[u].id != s.heap[t].id;
    }
    forall u | u in q' ensures u in s.ready && u != t {
    }
  }

  lemma DeleteLive<T>(s: State<T>, t: T)
    requires Core(s) && Live(s, t) && s.heap[t].state != RUNNING && !s.heap[t].terminated && s.heap[t].id != 0
    ensures Removed(s, DeleteThread(s, t), t)
  {
    hide EraseFirst, IndexOf, Without, Queues, Maps;
    var tid := s.heap[t].id;
    assert Placed(s, t);
    EraseLive(s, t);
    DropLive(s, t);
    QueuesOnce(s);
    Kept(s.ready, t);
    assert tid !in s.sleeping ==> s.sleeping - {tid} == s.sleeping;
  }

  lemma QueuesOnce<T>(s: State<T>)
    requires Core(s)
    ensures NoDup(s.ready) && NoDup(s.blocked)
  {
  }

  lemma RemovedLive<T>(s: State<T>, s': State<T>, t: T, u: T)
    requires Removed(s, s', t)
    ensures Live(s', u) <==> Live(s, u) && u != t
    ensures u in s'.heap ==> u != t && u in s.heap && s'.heap[u] == s.heap[u] && (Pending(s', u) <==> Pending(s, u))
  {
    hide SameBut;
  }

  lemma MapLess<A, B>(m: map<A, B>, k: A)
    requires k in m
    ensures |m - {k}| == |m| - 1
    ensures forall i :: i in m - {k} <==> i in m && i != k
    ensures forall i :: i in m && i != k ==> (m - {k})[i] == m[i]
  {
    assert (m - {k}).Keys == m.Keys - {k};
    assert |m.Keys| == |m|;
  }

  lemma ThreadsLess<T>(threads: map<int, T>, heap: map<T, Rec>, t: T)
    requires forall i :: i in threads ==> threads[i] in heap && heap[threads[i]].id == i
    requires t in heap && heap[t].id in threads
    ensures |threads - {heap[t].id}| == |threads| - 1
    ensures forall i :: i in threads - {heap[t].id} ==>
              i in threads && (threads - {heap[t].id})[i] == threads[i] && i != heap[t].id && threads[i] in heap - {t}
  {
    MapLess(threads, heap[t].id);
  }

  lemma RemovedThreads<T>(s: State<T>, s': State<T>, t: T)
    requires Maps(s) && Removed(s, s', t) && s.heap[t].id != 0
    ensures s'.count == |s'.threads| && 0 in s'.threads
    ensures forall i :: i in s'.threads ==>
              && i in s.threads && s'.threads[i] == s.threads[i] && i != s.heap[t].id
              && s'.threads[i] in s'.heap && s'.heap[s'.threads[i]] == s.heap[s.threads[i]]
  {
    hide SameBut;
    ThreadsLess(s.threads, s.heap, t);
  }

  lemma RemovedEnds<T>(s: State<T>, s': State<T>, t: T)
    requires Maps(s) && Removed(s, s', t) && forall i :: i in s.termination ==> s.termination[i] != t
    ensures s'.termination == s.termination
    ensures forall i :: i in s.termination ==>
              s.termination[i] in s'.heap && s'.heap[s.termination[i]] == s.heap[s.termination[i]]
  {
    hide SameBut, Live;
  }

  lemma RemovedNaps<T>(s: State<T>, s': State<T>, t: T)
    requires Maps(s) && Removed(s, s', t)
    ensures forall i :: i in s'.sleeping ==>
              i in s.sleeping && i in s'.threads && s'.sleeping[i] == s.sleeping[i] && s'.threads[i] == s.threads[i]
  {
    hide SameBut;
  }

  lemma RemovedMaps<T>(s: State<T>, s': State<T>, t: T)
    requires Maps(s) && Removed(s, s', t) && s.heap[t].id != 0
    requires forall i :: i in s.termination ==> s.termination[i] != t
    ensures Maps(s')
  {
    hide Removed, Live;
    RemovedThreads(s, s', t);
    RemovedEnds(s, s', t);
    RemovedNaps(s, s', t);
  }

  lemma RemovedQueues<T>(s: State<T>, s': State<T>, t: T)
    requires Queues(s) && Removed(s, s', t)
    ensures Queues(s')
  {
    hide Live, Blocks;
    forall u | u in s'.ready ensures Live(s', u) {
      RemovedLive(s, s', t, u);
    }
    forall u | u in s'.blocked ensures Live(s', u) && u in s'.heap && s'.heap[u] == s.heap[u] {
      RemovedLive(s, s', t, u);
      LiveAllocated(s', u);
    }
  }

  lemma RemovedPlaced<T>(s: State<T>, s': State<T>, t: T, u: T)
    requires u in s.heap && Placed(s, u) && Removed(s, s', t) && u in s'.heap
    ensures Placed(s', u)
  {
    RemovedLive(s, s', t, u);
    if Live(s, u) {
      LiveAllocated(s, u);
      LiveAllocated(s, t);
    }
    hide Live, Pending, Sleeps;
  }

  lemma NotPending<T>(s: State<T>, s': State<T>, t: T)
    requires Core(s) && Removed(s, s', t)
    ensures forall i :: i in s.termination ==> s.termination[i] != t
  {
    assert Placed(s, t);
  }

  lemma RemovedCore<T>(s: State<T>, s': State<T>, t: T)
    requires Core(s) && Removed(s, s', t) && s.heap[t].id != 0
    ensures Core(s')
    ensures forall u :: Live(s', u) <==> Live(s, u) && u != t
  {
    hide *;
    CoreParts(s);
    NotPending(s, s', t);
    RemovedMaps(s, s', t);
    RemovedQueues(s, s', t);
    forall u ensures Live(s', u) <==> Live(s, u) && u != t {
      RemovedLive(s, s', t, u);
    }
    forall u | u in s'.heap ensures Placed(s', u) {
      RemovedLive(s, s', t, u);
      RemovedPlaced(s, s', t, u);
    }
    CoreOf(s');
  }

  lemma TerminateEntered<T>(s: State<T>)
    requires Inv(s) && s.heap[s.running].id != 0
    ensures var s' := s.Put(s.running, s.heap[s.running].(terminated := true));
            Entered(s') && forall u :: Live(s', u) <==> Live(s, u)
  {
    var t, r := s.running, s.heap[s.running];
    var r' := r.(terminated := true);
    assert Placed(s, t);
    Kept(s.ready, t);
    Kept(s.blocked, t);
    assert s.sleeping - {r.id} == s.sleeping;
    assert Changes(s, s.Put(t, r'), t, r');
    ChangeCore(s, s.Put(t, r'), t, r');
  }

  lemma TerminateInv<T>(s: State<T>, tid: int)
    requires Inv(s) && tid != 0
    ensures Inv(DoTerminate(s, tid).state)
  {
    if tid in s.threads {
      var t := s.threads[tid];
      var r := s.heap[t];
      assert Placed(s, t);
      if r.state == RUNNING {
        TerminateEntered(s);
        ScheduleInv(s.Put(t, r.(terminated := true)));
      } else {
        DeleteLive(s, t);
        RemovedCore(s, DeleteThread(s, t), t);
      }
    }
  }

  lemma BlockInv<T>(s: State<T>, tid: int)
    requires Inv(s)
    ensures Inv(DoBlock(s, tid).state)
  {
    if tid in s.threads && tid != 0 {
      var t := s.threads[tid];
      var r := s.heap[t];
      assert Placed(s, t);
      if r.state == RUNNING {
        BlockRunning(s);
        ScheduleInv(s.Put(t, r.(state := BLOCKED)).(blocked := s.blocked + [t]));
      } else if r.state == SLEEP || r.state == READY {
        BlockOther(s, tid);
      }
    }
  }

  lemma BlockRunning<T>(s: State<T>)
    requires Inv(s) && s.heap[s.running].id != 0
    ensures var t, r := s.running, s.heap[s.running];
            var s' := s.Put(t, r.(state := BLOCKED)).(blocked := s.blocked + [t]);
            Entered(s') && forall u :: Live(s', u) <==> Live(s, u)
  {
    hide Inv, Core, SameBut, NoDup;
    RunningPlaced(s);
    RunnerFree(s);
    var t, r := s.running, s.heap[s.running];
    var r' := r.(state := BLOCKED);
    var s' := s.Put(t, r').(blocked := s.blocked + [t]);
    Appended(s.blocked, t);
    Kept(s.ready, t);
    assert Changes(s, s', t, r');
    ChangeCore(s, s', t, r');
  }

  lemma RunningPlaced<T>(s: State<T>)
    requires Inv(s)
    ensures Core(s) && Live(s, s.running) && s.heap[s.running].state == RUNNING && !s.heap[s.running].terminated
  {
  }

  lemma BlockOther<T>(s: State<T>, tid: int)
    requires Inv(s) && tid in s.threads && tid != 0
    requires s.heap[s.threads[tid]].state == SLEEP || s.heap[s.threads[tid]].state == READY
    ensures Inv(DoBlock(s, tid).state)
    ensures forall u :: Live(DoBlock(s, tid).state, u) <==> Live(s, u)
    ensures SameBut(s.ready, DoBlock(s, tid).state.ready, s.threads[tid], false)
  {
    hide Inv, Core, SameBut, NoDup, Without, Schedule;
    var t := s.threads[tid];
    OwnerPlaced(s, tid);
    var r := s.heap[t];
    var s' := DoBlock(s, tid).state;
    var r' := r.(state := if r.state == SLEEP then SLEEP_BLOCK else BLOCKED);
    Appended(s.blocked, t);
    Kept(s.ready, t);
    DropLive(s, t);
    assert Changes(s, s', t, r');
    ChangeCore(s, s', t, r');
    OtherRuns(s, s', t, r');
  }

  lemma OwnerPlaced<T>(s: State<T>, tid: int)
    requires Inv(s) && tid in s.threads && tid != 0
    requires s.heap[s.threads[tid]].state == SLEEP || s.heap[s.threads[tid]].state == READY
    ensures Core(s)
    ensures var t := s.threads[tid];
            && Live(s, t) && s.heap[t].id == tid && t != s.running && !s.heap[t].terminated && t !in s.blocked
            && NoDup(s.ready) && NoDup(s.blocked) && (t in s.ready <==> s.heap[t].state == READY)
            && (s.heap[t].state == SLEEP ==> s.sleeping[tid := t] == s.sleeping && s.heap[t].sleep > 0)
            && (s.heap[t].state == READY ==> s.sleeping - {tid} == s.sleeping)
  {
    var t := s.threads[tid];
    assert Placed(s, t) && Placed(s, s.running) && Live(s, t);
    SleepingEntry(s, t);
  }

  lemma SleepingEntry<T>(s: State<T>, t: T)
    requires Core(s) && Live(s, t)
    ensures s.heap[t].id in s.sleeping ==> s.sleeping[s.heap[t].id] == t
  {
  }

  lemma ResumeInv<T>(s: State<T>, tid: int)
    requires Inv(s)
    ensures Inv(DoResume(s, tid).state)
  {
    var i := IndexOf(s.heap, s.blocked, tid);
    if tid !in s.termination && tid in s.threads && i < |s.blocked| {
      var t := s.threads[tid];
      assert Live(s, t) && s.heap[t].id == tid;
      EraseLive(s, t);
      assert Placed(s, t) && Placed(s, s.running);
      ResumeFound(s, t);
    }
  }

  lemma ResumeFound<T>(s: State<T>, t: T)
    requires Inv(s) && Live(s, t) && t in s.blocked && s.heap[t].id !in s.termination
    ensures Inv(DoResume(s, s.heap[t].id).state)
    ensures forall u :: Live(DoResume(s, s.heap[t].id).state, u) <==> Live(s, u)
    ensures s.ready <= DoResume(s, s.heap[t].id).state.ready
  {
    var r := s.heap[t];
    var s' := DoResume(s, r.id).state;
    ResumeChanges(s, t);
    InvRunner(s, t);
    hide *;
    InvCore(s);
    ChangeCore(s, s', t, r.(state := if r.state == SLEEP_BLOCK then SLEEP else READY));
    OtherRuns(s, s', t, r.(state := if r.state == SLEEP_BLOCK then SLEEP else READY));
  }

  lemma InvCore<T>(s: State<T>)
    requires Inv(s)
    ensures Core(s)
  {
  }

  lemma InvRunner<T>(s: State<T>, t: T)
    requires Inv(s) && Live(s, t) && t in s.blocked
    ensures t != s.running
  {
  }

  /** Changing another thread leaves the running one running. */
  lemma OtherRuns<T>(s: State<T>, s': State<T>, t: T, r': Rec)
    requires Inv(s) && Core(s') && Changes(s, s', t, r') && t != s.running
    ensures Inv(s')
  {
    LiveSame(s, s', t, r', s.running);
  }

  /** What resuming a thread in the blocked list does. */
  ghost function Resumed<T>(s: State<T>, t: T, r: Rec): State<T> {
    s.Put(t, r.(state := if r.state == SLEEP_BLOCK then SLEEP else READY))
     .(ready := if r.state == SLEEP_BLOCK then s.ready else s.ready + [t],
       blocked := EraseFirst(s.heap, s.blocked, r.id))
  }

  lemma ResumeIsResumed<T>(s: State<T>, t: T)
    requires Core(s) && Live(s, t) && t in s.blocked && s.heap[t].id !in s.termination
    ensures DoResume(s, s.heap[t].id).state == Resumed(s, t, s.heap[t])
  {
    EraseLive(s, t);
    hide Core, IndexOf;
  }

  lemma ResumeChanges<T>(s: State<T>, t: T)
    requires Inv(s) && Live(s, t) && t in s.blocked && s.heap[t].id !in s.termination
    ensures var r, s' := s.heap[t], DoResume(s, s.heap[t].id).state;
            && Changes(s, s', t, r.(state := if r.state == SLEEP_BLOCK then SLEEP else READY))
            && s.ready <= s'.ready
  {
    hide Core, Inv, IndexOf, EraseFirst, DoResume, SameBut, NoDup;
    var r := s.heap[t];
    InvCore(s);
    ResumeIsResumed(s, t);
    EraseLive(s, t);
    BlockedPlaced(s, t);
    QueuesOnce(s);
    Kept(s.ready, t);
    if r.state == BLOCKED {
      Appended(s.ready, t);
    }
    NotIn(s, Resumed(s, t, r), t);
  }

  lemma NotIn<T>(s: State<T>, s': State<T>, t: T)
    requires SameBut(s.blocked, s'.blocked, t, false)
    ensures t !in s'.blocked
  {
  }

  lemma BlockedPlaced<T>(s: State<T>, t: T)
    requires Inv(s) && Live(s, t) && t in s.blocked
    ensures t != s.running && t !in s.ready && Blocks(s.heap[t].state) && !s.heap[t].terminated && s.heap[t].id != 0
    ensures var r := s.heap[t];
            if r.state == SLEEP_BLOCK then s.sleeping[r.id := t] == s.sleeping && r.sleep > 0
            else s.sleeping - {r.id} == s.sleeping
  {
    assert Placed(s, t);
    SleepingEntry(s, t);
  }

  lemma SleepEntered<T>(s: State<T>, quanta: int)
    requires Inv(s) && s.heap[s.running].id != 0 && quanta > 0
    ensures var r := s.heap[s.running];
            var s' := s.Put(s.running, r.(state := SLEEP, sleep := quanta + 1)).(sleeping := s.sleeping[r.id := s.running]);
            Entered(s') && forall u :: Live(s', u) <==> Live(s, u)
  {
    var t, r := s.running, s.heap[s.running];
    var r' := r.(state := SLEEP, sleep := quanta + 1);
    var s' := s.Put(t, r').(sleeping := s.sleeping[r.id := t]);
    assert Placed(s, t);
    Kept(s.ready, t);
    Kept(s.blocked, t);
    assert Changes(s, s', t, r');
    ChangeCore(s, s', t, r');
  }

  lemma SleepInv<T>(s: State<T>, quanta: int)
    requires Inv(s)
    ensures Inv(DoSleep(s, quanta).state)
  {
    var r := s.heap[s.running];
    if r.id != 0 && quanta > 0 {
      SleepEntered(s, quanta);
      ScheduleInv(s.Put(s.running, r.(state := SLEEP, sleep := quanta + 1)).(sleeping := s.sleeping[r.id := s.running]));
    }
  }

  /** A new thread object is one that is not allocated; ending the main thread
      ends the process. */
  ghost predicate Allowed<T>(s: State<T>, op: Op<T>) {
    (op.Spawn? ==> op.thread !in s.heap) && (op.Terminate? ==> op.tid != 0)
  }

  /** Every call, and every timer tick, keeps the scheduler consistent. */
  lemma StepInv<T>(s: State<T>, op: Op<T>)
    requires Inv(s) && Allowed(s, op)
    ensures Inv(Step(s, op).state)
  {
    match op
    case Spawn(t) => SpawnInv(s, t);
    case Terminate(tid) => TerminateInv(s, tid);
    case Block(tid) => BlockInv(s, tid);
    case Resume(tid) => ResumeInv(s, tid);
    case Sleep(quanta) => SleepInv(s, quanta);
    case Tick => ScheduleInv(s);
  }

  lemma InitInv<T>(main: T)
    ensures Inv(Init(main))
  {
    assert |map[0 := main]| == 1;
  }
}

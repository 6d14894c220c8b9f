/** The sample client, which counts how often each character occurs, and what
    the framework makes of it. */
module CounterClient {
  import opened PairVectors
  import opened Grouping
  import opened JobProtocol
  import opened JobInvariant
  import opened JobOrder
  import opened JobReduce
  import opened JobRuns
  import opened JobEnds
  import opened JobResult

  /** A C++ `char`, which is signed. */
  type Char = c: int | -128 <= c < 128 witness 0

  type Count = Pair<Char, int>

  /** `(unsigned char) c`. */
  function Unsigned(c: Char): (i: nat)
    ensures i < 256 && ToChar(i) == c
  {
    if c < 0 then c + 256 else c
  }

  /** The conversion of an `int` back to `char`. */
  function ToChar(i: nat): Char
    requires i < 256
  {
    if i < 128 then i else i - 256
  }

  /** One pair for each character that occurs, among the first `n` in unsigned
      order, with its number of occurrences. */
  function Tally(content: seq<Char>, n: nat): seq<Count>
    requires n <= 256
  {
    if n == 0 then []
    else
      var c := ToChar(n - 1);
      if multiset(content)[c] == 0 then Tally(content, n - 1)
      else Tally(content, n - 1) + [Pair(c, multiset(content)[c])]
  }

  function SumVals(pairs: seq<Count>): int {
    if pairs == [] then 0 else SumVals(pairs[..|pairs| - 1]) + pairs[|pairs| - 1].val
  }

  function Less(a: Char, b: Char): bool {
    a < b
  }

  /** The pairs one input emits. */
  function MapOf(content: seq<Char>): seq<Count> {
    Tally(content, 256)
  }

  /** The output of one group. */
  function ReduceOf(pairs: seq<Count>): seq<Count> {
    if pairs == [] then [] else [Pair(pairs[0].key, SumVals(pairs))]
  }

  function Counter(): Client<seq<Char>, Char, int, Count> {
    Client(MapOf, ReduceOf, Less)
  }

  // ----------------------------------------------------------------- the callbacks

  method Map(content: seq<Char>) returns (emitted: seq<Count>)
    ensures emitted == MapOf(content)
  {
    var counts := new int[256](_ => 0);
    var k := 0;
    while k < |content|
      invariant k <= |content|
      invariant forall i: nat :: i < 256 ==> counts[i] == multiset(content[..k])[ToChar(i)]
    {
      var c := content[k];
      assert content[..k + 1] == content[..k] + [c];
      counts[Unsigned(c)] := counts[Unsigned(c)] + 1;
      k := k + 1;
    }
    assert content[..k] == content;
    emitted := [];
    var i := 0;
    while i < 256
      invariant i <= 256 && emitted == Tally(content, i)
    {
      if counts[i] != 0 {
        emitted := emitted + [Pair(ToChar(i), counts[i])];
      }
      i := i + 1;
    }
  }

  method Reduce(pairs: seq<Count>) returns (emitted: seq<Count>)
    requires pairs != []
    ensures emitted == ReduceOf(pairs)
  {
    var c := pairs[0].key;
    var count := 0;
    for i := 0 to |pairs|
      invariant count == SumVals(pairs[..i])
    {
      assert pairs[..i + 1][..i] == pairs[..i];
      count := count + pairs[i].val;
    }
    assert pairs[..|pairs|] == pairs;
    emitted := [Pair(c, count)];
  }

  // -------------------------------------------------------------------------- sums

  lemma {:induction false} SumAppend(a: seq<Count>, b: seq<Count>)
    ensures SumVals(a + b) == SumVals(a) + SumVals(b)
  {
    if b == [] {
      assert a + b == a;
    } else {
      assert (a + b)[..|a + b| - 1] == a + b[..|b| - 1];
      SumAppend(a, b[..|b| - 1]);
    }
  }

  lemma TakeOut(b: seq<Count>, k: nat)
    requires k < |b|
    ensures SumVals(b) == SumVals(b[..k] + b[k + 1..]) + b[k].val
    ensures multiset(b) == multiset(b[..k] + b[k + 1..]) + multiset{b[k]}
  {
    hide *;
    var x, last, y := b[..k], [b[k]], b[k + 1..];
    assert b == (x + last) + y;
    SumSingle(b[k]);
    SumAppend(x + last, y);
    SumAppend(x, last);
    SumAppend(x, y);
  }

  lemma SumSingle(p: Count)
    ensures SumVals([p]) == p.val
  {
    assert [p][..0] == [];
  }

  /** The sum does not depend on the order. */
  lemma {:induction false} SumPermuted(a: seq<Count>, b: seq<Count>)
    requires multiset(a) == multiset(b)
    ensures SumVals(a) == SumVals(b)
    decreases |a|
  {
    if a == [] {
      assert |multiset(b)| == 0;
    } else {
      hide *;
      var n := |a| - 1;
      var k := IndexOf(b, a[n]);
      TakeOut(a, n);
      TakeOut(b, k);
      var x, y := a[..n] + a[n + 1..], b[..k] + b[k + 1..];
      assert multiset(x) == multiset(a) - multiset{a[n]};
      assert multiset(y) == multiset(b) - multiset{a[n]};
      SumPermuted(x, y);
    }
  }

  lemma IndexOf(b: seq<Count>, p: Count) returns (k: nat)
    requires multiset(b)[p] > 0
    ensures k < |b| && b[k] == p
  {
    assert p in b;
    k :| k < |b| && b[k] == p;
  }

  lemma TallyIs(content: seq<Char>, n: nat)
    requires 0 < n <= 256
    ensures var d := ToChar(n - 1);
            Tally(content, n) == Tally(content, n - 1) +
                                 if multiset(content)[d] == 0 then [] else [Pair(d, multiset(content)[d])]
  {
    var none: seq<Count> := [];
    assert Tally(content, n - 1) + none == Tally(content, n - 1);
  }

  lemma WithKeySingle(p: Count, c: Char)
    ensures WithKey(Less, [p], c) == if c == p.key then [p] else []
    ensures WithKey<Char, int>(Less, [], c) == []
  {
    assert [p][..0] == [];
  }

  lemma UnsignedIs(n: nat, c: Char)
    requires n < 256
    ensures Unsigned(c) == n <==> c == ToChar(n)
  {
  }

  /** An input's pairs for a character add up to its occurrences. */
  lemma {:induction false} TallyCounts(content: seq<Char>, n: nat, c: Char)
    requires n <= 256
    ensures SumVals(WithKey(Less, Tally(content, n), c)) == if Unsigned(c) < n then multiset(content)[c] else 0
    ensures forall p :: p in Tally(content, n) ==> p.val > 0
  {
    if n > 0 {
      hide *;
      TallyCounts(content, n - 1, c);
      var d := ToChar(n - 1);
      var p := Pair(d, multiset(content)[d]);
      var last := if multiset(content)[d] == 0 then [] else [p];
      TallyIs(content, n);
      UnsignedIs(n - 1, c);
      WithKeySingle(p, c);
      SumSingle(p);
      WithKeyAppend(Less, Tally(content, n - 1), last, c);
      SumAppend(WithKey(Less, Tally(content, n - 1), c), WithKey(Less, last, c));
      SumNone();
    }
  }

  lemma SumNone()
    ensures SumVals([]) == 0
  {
  }

  /** How often a character occurs in the first `n` inputs. */
  ghost function Occurrences(inputs: seq<seq<Char>>, n: nat, c: Char): nat
    requires n <= |inputs|
  {
    if n == 0 then 0 else Occurrences(inputs, n - 1, c) + multiset(inputs[n - 1])[c]
  }

  /** So do the pairs of all inputs together. */
  lemma {:induction false} MappedCounts(inputs: seq<seq<Char>>, n: nat, c: Char)
    requires n <= |inputs|
    ensures SumVals(WithKey(Less, Mapped(Counter(), inputs, n), c)) == Occurrences(inputs, n, c)
    ensures forall p :: p in Mapped(Counter(), inputs, n) ==> p.val > 0
  {
    if n > 0 {
      MappedCounts(inputs, n - 1, c);
      TallyCounts(inputs[n - 1], 256, c);
      WithKeyAppend(Less, Mapped(Counter(), inputs, n - 1), MapOf(inputs[n - 1]), c);
      SumAppend(WithKey(Less, Mapped(Counter(), inputs, n - 1), c), WithKey(Less, MapOf(inputs[n - 1]), c));
    }
  }

  lemma {:induction false} PositiveSum(pairs: seq<Count>)
    requires forall p :: p in pairs ==> p.val > 0
    ensures SumVals(pairs) > 0 <==> pairs != []
    ensures SumVals(pairs) >= 0
  {
    if pairs != [] {
      PositiveSum(pairs[..|pairs| - 1]);
    }
  }

  // ------------------------------------------------------------------- the whole job

  lemma CounterMeetsNeeds()
    ensures StrictWeakOrder(Counter().less) && OrderInsensitive(Counter())
    ensures forall a: Char, b: Char :: Counter().less(a, b) <==> (a as int) < (b as int)
  {
    forall a, b | OneKey(Less, a) && OneKey(Less, b) && multiset(a) == multiset(b)
      ensures ReduceOf(a) == ReduceOf(b)
    {
      SumPermuted(a, b);
      assert a[0] in multiset(b);
      assert a[0] in b;
    }
  }

  lemma GroupingAt(groups: seq<seq<Count>>, all: seq<Count>, i: nat)
    requires IsGrouping(Less, groups, all) && i < |groups|
    ensures groups[i] != [] && multiset(groups[i]) == multiset(WithKey(Less, all, groups[i][0].key))
  {
  }

  /** A grouping's sum at a key is the character's number of occurrences. */
  lemma GroupCounts(inputs: seq<seq<Char>>, groups: seq<seq<Count>>, i: nat)
    requires IsGrouping(Less, groups, Mapped(Counter(), inputs, |inputs|)) && i < |groups|
    ensures groups[i] != [] && SumVals(groups[i]) == Occurrences(inputs, |inputs|, groups[i][0].key) > 0
  {
    hide *;
    var all := Mapped(Counter(), inputs, |inputs|);
    GroupingAt(groups, all, i);
    var c := groups[i][0].key;
    SumPermuted(groups[i], WithKey(Less, all, c));
    MappedCounts(inputs, |inputs|, c);
    WithKeyElements(Less, all, c);
    assert multiset(groups[i])[groups[i][0]] > 0;
    PositiveSum(WithKey(Less, all, c));
  }

  /** Every character that occurs has a group. */
  lemma GroupExists(inputs: seq<seq<Char>>, groups: seq<seq<Count>>, c: Char) returns (i: nat)
    requires IsGrouping(Less, groups, Mapped(Counter(), inputs, |inputs|)) && Occurrences(inputs, |inputs|, c) > 0
    ensures i < |groups| && groups[i] != [] && groups[i][0].key == c
  {
    hide *;
    var all := Mapped(Counter(), inputs, |inputs|);
    MappedCounts(inputs, |inputs|, c);
    WithKeyElements(Less, all, c);
    PositiveSum(WithKey(Less, all, c));
    var mine := WithKey(Less, all, c);
    var p := mine[0];
    assert p in mine;
    i := GroupWith(groups, all, p);
    SameChar(p.key, c);
    SameChar(p.key, groups[i][0].key);
  }

  lemma SameChar(a: Char, b: Char)
    requires Equiv(Less, a, b)
    ensures a == b
  {
  }

  lemma GroupWith(groups: seq<seq<Count>>, all: seq<Count>, p: Count) returns (i: nat)
    requires IsGrouping(Less, groups, all) && p in all
    ensures i < |groups| && groups[i] != [] && Equiv(Less, p.key, groups[i][0].key)
  {
    var k :| 0 <= k < |groups| && p in groups[k];
    i := k;
    GroupsHaveOneKey(Less, groups, all, i);
  }

  lemma {:induction false} ReducedAt(groups: seq<seq<Count>>, n: nat)
    requires n <= |groups| && forall i :: 0 <= i < |groups| ==> groups[i] != []
    ensures |Reduced(Counter(), groups, n)| == n
    ensures forall i :: 0 <= i < n ==> Reduced(Counter(), groups, n)[i] == Pair(groups[i][0].key, SumVals(groups[i]))
  {
    if n > 0 {
      ReducedAt(groups, n - 1);
    }
  }

  lemma {:induction false} DistinctCount<T>(s: seq<T>, x: T)
    requires forall i, j :: 0 <= i < j < |s| ==> s[i] != s[j]
    ensures multiset(s)[x] == if x in s then 1 else 0
  {
    if s != [] {
      DistinctCount(s[1..], x);
      assert s == [s[0]] + s[1..];
    }
  }

  /** The output of a finished counting job, for any number of threads and any
      schedule: for each character that occurs exactly one pair, with its exact
      number of occurrences over all inputs, and no other pair. */
  lemma {:induction false} CountsAreExact(inputs: seq<seq<Char>>, s: State<Char, int, Count>, c: Char, v: int)
    requires Inv(Counter(), inputs, s) && Finished(s)
    ensures multiset(s.output)[Pair(c, v)] == if v > 0 && v == Occurrences(inputs, |inputs|, c) then 1 else 0
  {
    hide Inv, Finished, Reduced, StrictWeakOrder, OrderInsensitive, Mapped, SumVals, Occurrences;
    CounterMeetsNeeds();
    FinishedResult(Counter(), inputs, s);
    OutputCounts(inputs, s.shuffled, c, v);
  }

  lemma OutputCounts(inputs: seq<seq<Char>>, groups: seq<seq<Count>>, c: Char, v: int)
    requires IsGrouping(Less, groups, Mapped(Counter(), inputs, |inputs|))
    ensures multiset(Reduced(Counter(), groups, |groups|))[Pair(c, v)]
         == if v > 0 && v == Occurrences(inputs, |inputs|, c) then 1 else 0
  {
    hide Mapped, SumVals, Occurrences, Reduced;
    var out := Reduced(Counter(), groups, |groups|);
    ReducedAt(groups, |groups|);
    DistinctCount(out, Pair(c, v));
    if Pair(c, v) in out {
      var i :| 0 <= i < |out| && out[i] == Pair(c, v);
      GroupCounts(inputs, groups, i);
    }
    if v > 0 && v == Occurrences(inputs, |inputs|, c) {
      var i := GroupExists(inputs, groups, c);
      GroupCounts(inputs, groups, i);
      assert out[i] == Pair(c, v);
    }
  }

  // ------------------------------------------------------------------------- order

  /** A string's pairs come in the order of the characters' byte values, each
      with the exact number of occurrences, and no character that occurs is
      left out. */
  lemma {:induction false} TallyInOrder(content: seq<Char>, n: nat)
    requires n <= 256
    ensures forall i, j :: 0 <= i < j < |Tally(content, n)| ==> Tally(content, n)[i].key % 256 < Tally(content, n)[j].key % 256
    ensures forall p :: p in Tally(content, n) ==> p.key % 256 < n && p.val == multiset(content)[p.key] > 0
    ensures forall c :: c in content && c % 256 < n ==> Pair(c, multiset(content)[c]) in Tally(content, n)
  {
    if n > 0 {
      TallyInOrder(content, n - 1);
      var rest, d := Tally(content, n - 1), ToChar(n - 1);
      forall i | 0 <= i < |rest| ensures rest[i].key % 256 < n - 1 {
        assert rest[i] in rest;
      }
      forall c | c in content && c % 256 < n && c != d ensures c % 256 < n - 1 {
      }
    }
  }

  /** The groups of a finished counting job stand in ascending order of their
      characters, as signed numbers. With one thread so does the output. */
  lemma CountsInOrder(inputs: seq<seq<Char>>, s: State<Char, int, Count>)
    requires Inv(Counter(), inputs, s) && Finished(s)
    ensures forall i, j :: 0 <= i < j < |s.shuffled| ==>
              s.shuffled[i] != [] && s.shuffled[j] != [] && (s.shuffled[i][0].key as int) < (s.shuffled[j][0].key as int)
    ensures |s.pcs| == 1 ==> forall i, j :: 0 <= i < j < |s.output| ==> (s.output[i].key as int) < (s.output[j].key as int)
  {
    hide Inv, Finished, Reduced, StrictWeakOrder, OrderInsensitive, Mapped, SumVals, Interleaves, FromThreads;
    CounterMeetsNeeds();
    FinishedResult(Counter(), inputs, s);
    forall i | 0 <= i < |s.shuffled| ensures s.shuffled[i] != [] {
    }
    ReducedAt(s.shuffled, |s.shuffled|);
  }

  /** From start to end: a counting job started with any number of threads
      finishes under every schedule, and its counts are exact. */
  lemma CountingJob(inputs: seq<seq<Char>>, n: nat, run: nat -> State<Char, int, Count>) returns (end: nat)
    requires n >= 1 && run(0) == Started<Char, int, Count>(n) && Schedule(Counter(), inputs, run)
    ensures Finished(run(end))
    ensures n == 1 ==> forall i, j :: 0 <= i < j < |run(end).output| ==>
              (run(end).output[i].key as int) < (run(end).output[j].key as int)
    ensures forall c: Char, v: int :: multiset(run(end).output)[Pair(c, v)]
              == if v > 0 && v == Occurrences(inputs, |inputs|, c) then 1 else 0
  {
    hide Inv, Schedule, Finished, StrictWeakOrder, OrderInsensitive;
    CounterMeetsNeeds();
    StartedInv(Counter(), inputs, n);
    end := ScheduleEnds(Counter(), inputs, run, 0);
    CountsInOrder(inputs, run(end));
    forall c: Char, v: int
      ensures multiset(run(end).output)[Pair(c, v)] == if v > 0 && v == Occurrences(inputs, |inputs|, c) then 1 else 0
    {
      CountsAreExact(inputs, run(end), c, v);
    }
  }
}

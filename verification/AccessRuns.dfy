/** Whole runs of reads and writes: the paged memory is a flat memory. */
module AccessRuns {
  import opened PageNumbers
  import opened PhysicalMemory
  import opened PageTree
  import opened FlatMemory
  import opened VirtualMemory

  /** A run from a fresh memory: the pages known before and after each call. */
  ghost predicate Run(g: Geometry, ops: seq<Access>, pages: seq<Flat>)
    requires g.pageSize > 0
  {
    && |pages| == |ops| + 1 && pages[0] == map[]
    && forall i :: 0 <= i < |ops| ==> Performs(g, pages[i], ops[i], pages[i + 1])
  }

  predicate WritesTo(op: Access, address: nat) {
    op.Write? && op.address == address
  }

  ghost predicate Holds(g: Geometry, flat: Flat, address: nat, value: int)
    requires g.pageSize > 0
  {
    && PageOf(g, address) in flat
    && |flat[PageOf(g, address)]| == g.pageSize
    && flat[PageOf(g, address)][OffsetOf(g, address)] == value
  }

  /** Two addresses with the same page and offset are the same address. */
  lemma SameWord(g: Geometry, a: nat, b: nat)
    requires g.pageSize > 0 && PageOf(g, a) == PageOf(g, b) && OffsetOf(g, a) == OffsetOf(g, b)
    ensures a == b
  {
    assert a == (a / g.pageSize) * g.pageSize + a % g.pageSize;
    assert b == (b / g.pageSize) * g.pageSize + b % g.pageSize;
  }

  /** Only a write to a word changes it. */
  lemma KeepsWord(g: Geometry, before: Flat, op: Access, after: Flat, address: nat, value: int)
    requires g.pageSize > 0 && Performs(g, before, op, after)
    requires Holds(g, before, address, value) && !(WritesTo(op, address) && InRange(g, address))
    ensures Holds(g, after, address, value)
  {
    if InRange(g, op.address) && op.address != address
       && PageOf(g, op.address) == PageOf(g, address) && OffsetOf(g, op.address) == OffsetOf(g, address) {
      SameWord(g, op.address, address);
    }
  }

  lemma {:induction false} WordSurvives(g: Geometry, ops: seq<Access>, pages: seq<Flat>,
                                        from: nat, till: nat, address: nat, value: int)
    requires g.pageSize > 0 && Run(g, ops, pages) && from <= till <= |ops|
    requires Holds(g, pages[from], address, value)
    requires forall k :: from <= k < till ==> !WritesTo(ops[k], address)
    ensures Holds(g, pages[till], address, value)
    decreases till - from
  {
    if from < till {
      KeepsWord(g, pages[from], ops[from], pages[from + 1], address, value);
      WordSurvives(g, ops, pages, from + 1, till, address, value);
    }
  }

  /** A read returns the value last written there, whatever happened between. */
  lemma LastWriteWins(g: Geometry, ops: seq<Access>, pages: seq<Flat>, w: nat, r: nat)
    requires g.pageSize > 0 && Run(g, ops, pages) && w < r < |ops|
    requires ops[w].Write? && ops[r].Read? && ops[r].address == ops[w].address && InRange(g, ops[w].address)
    requires forall k :: w < k < r ==> !WritesTo(ops[k], ops[w].address)
    ensures ops[r].result == ops[w].value
  {
    var address := ops[w].address;
    assert Performs(g, pages[w], ops[w], pages[w + 1]);
    assert Holds(g, pages[w + 1], address, ops[w].value);
    WordSurvives(g, ops, pages, w + 1, r, address, ops[w].value);
    assert Performs(g, pages[r], ops[r], pages[r + 1]);
  }

  /** Even a word never written keeps the value its first read returned. */
  lemma ReadsAgree(g: Geometry, ops: seq<Access>, pages: seq<Flat>, r: nat, s: nat)
    requires g.pageSize > 0 && Run(g, ops, pages) && r < s < |ops|
    requires ops[r].Read? && ops[s].Read? && ops[s].address == ops[r].address && InRange(g, ops[r].address)
    requires forall k :: r < k < s ==> !WritesTo(ops[k], ops[r].address)
    ensures ops[s].result == ops[r].result
  {
    var address := ops[r].address;
    assert Performs(g, pages[r], ops[r], pages[r + 1]);
    assert Holds(g, pages[r + 1], address, ops[r].result);
    WordSurvives(g, ops, pages, r + 1, s, address, ops[r].result);
    assert Performs(g, pages[s], ops[s], pages[s + 1]);
  }

  /** No page is ever lost. */
  lemma {:induction false} PagesAreKept(g: Geometry, ops: seq<Access>, pages: seq<Flat>, from: nat, till: nat)
    requires g.pageSize > 0 && Run(g, ops, pages) && from <= till <= |ops|
    ensures pages[from].Keys <= pages[till].Keys
    decreases till - from
  {
    if from < till {
      assert Performs(g, pages[from], ops[from], pages[from + 1]);
      PagesAreKept(g, ops, pages, from + 1, till);
    }
  }

  /** The address the documentation's example program uses in round `i`. */
  function RoundAddress(g: Geometry, i: nat): nat {
    5 * i * g.pageSize
  }

  lemma RoundPage(g: Geometry, i: nat)
    requires g.pageSize > 0 && i < 2 * g.frames && 10 * g.frames <= g.pages
    ensures InRange(g, RoundAddress(g, i))
    ensures PageOf(g, RoundAddress(g, i)) == 5 * i && OffsetOf(g, RoundAddress(g, i)) == 0
  {
    SplitAddress(g.pageSize, 5 * i, 0);
  }

  /** The first `n` rounds left their numbers in memory. */
  ghost predicate Stored(g: Geometry, flat: Flat, n: nat)
    requires g.pageSize > 0
  {
    forall k: nat :: k < n ==> Holds(g, flat, RoundAddress(g, k), k)
  }

  lemma StoreRound(g: Geometry, before: Flat, i: nat, after: Flat)
    requires g.pageSize > 0 && i < 2 * g.frames && 10 * g.frames <= g.pages
    requires Stored(g, before, i) && Performs(g, before, Write(RoundAddress(g, i), i), after)
    ensures Stored(g, after, i + 1)
  {
    RoundPage(g, i);
    forall k: nat | k < i + 1 ensures Holds(g, after, RoundAddress(g, k), k) {
      RoundPage(g, k);
      if k < i {
        KeepsWord(g, before, Write(RoundAddress(g, i), i), after, RoundAddress(g, k), k);
      }
    }
  }

  lemma LoadRound(g: Geometry, before: Flat, i: nat, value: int, after: Flat)
    requires g.pageSize > 0 && i < 2 * g.frames && 10 * g.frames <= g.pages
    requires Stored(g, before, 2 * g.frames) && Performs(g, before, Read(RoundAddress(g, i), value), after)
    ensures Stored(g, after, 2 * g.frames) && value == i
  {
    RoundPage(g, i);
    forall k: nat | k < 2 * g.frames ensures Holds(g, after, RoundAddress(g, k), k) {
      KeepsWord(g, before, Read(RoundAddress(g, i), value), after, RoundAddress(g, k), k);
    }
    assert Holds(g, after, RoundAddress(g, i), i);
  }

  /** The example program of the memory's own documentation, first loop: it
      writes to twice as many pages as there are frames. */
  method WriteRounds(vm: PagedMemory)
    requires vm.Valid() && 10 * vm.g.frames <= vm.g.pages
    modifies vm, vm.pm, vm.pm.ram
    ensures vm.Valid() && Stored(vm.g, vm.Pages(), 2 * vm.g.frames)
  {
    hide *;
    var g := vm.g;
    NothingStored(g, vm.Pages());
    for i := 0 to 2 * g.frames
      invariant vm.Valid() && Stored(g, vm.Pages(), i)
    {
      RoundPage(g, i);
      ghost var before := vm.Pages();
      var ok := vm.VMwrite(RoundAddress(g, i), i);
      StoreRound(g, before, i, vm.Pages());
    }
  }

  /** Second loop: it reads every word back and finds the number it wrote. */
  method ReadRounds(vm: PagedMemory) returns (values: seq<int>)
    requires vm.Valid() && 10 * vm.g.frames <= vm.g.pages
    requires Stored(vm.g, vm.Pages(), 2 * vm.g.frames)
    modifies vm, vm.pm, vm.pm.ram
    ensures vm.Valid() && |values| == 2 * vm.g.frames
    ensures forall i :: 0 <= i < |values| ==> values[i] == i
  {
    hide *;
    var g := vm.g;
    values := [];
    for i := 0 to 2 * g.frames
      invariant vm.Valid() && Stored(g, vm.Pages(), 2 * g.frames)
      invariant |values| == i && forall k :: 0 <= k < i ==> values[k] == k
    {
      RoundPage(g, i);
      ghost var before := vm.Pages();
      var ok, value := vm.VMread(RoundAddress(g, i));
      LoadRound(g, before, i, value, vm.Pages());
      values := values + [value];
    }
  }

  lemma NothingStored(g: Geometry, flat: Flat)
    requires g.pageSize > 0
    ensures Stored(g, flat, 0)
  {
  }
}

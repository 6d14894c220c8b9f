/** The record of a translation: which frame each fault on the way took, and
    which page it put into the swap file. */
module Faults {
  import opened PageNumbers
  import opened PhysicalMemory
  import opened PageTree
  import opened FrameSearch
  import opened FrameChoice

  /** The linked frames, the RAM and the swap file at one moment. */
  datatype Moment = Moment(tree: Tree, mem: Memory, swap: map<nat, seq<int>>)

  /** The walk to `page` met an empty cell at level `i` and filled it. */
  ghost predicate Fault(g: Geometry, page: nat, i: nat, before: Moment, after: Moment)
    requires g.pageSize > 0 && i < g.depth
  {
    var at, c := PathOf(g, page)[..i], PathOf(g, page)[..i + 1];
    && WellFormed(g, before.tree) && LeavesArePages(g, before.tree) && page < g.pages
    && at in before.tree && c !in before.tree && c in after.tree
    && exists tree1, swap1 ::
         && Chooses(g, before.tree, before.mem, before.swap, page, before.tree[at], after.tree[c], tree1, swap1)
         && after.tree == tree1[c := after.tree[c]]
         && after.swap == if i + 1 == g.depth then swap1 - {page} else swap1
  }

  /** What the first `i` levels of the walk to `page` did: a level whose cell
      is linked does nothing, and one whose cell is empty faults. */
  ghost predicate Walked(g: Geometry, page: nat, i: nat, before: Moment, now: Moment)
    requires g.pageSize > 0 && i <= g.depth
  {
    if i == 0 then now == before
    else exists mid ::
      && Walked(g, page, i - 1, before, mid)
      && if PathOf(g, page)[..i] in mid.tree then now == mid else Fault(g, page, i - 1, mid, now)
  }

  /** A whole translation of an address of `page`. */
  ghost predicate Translated(g: Geometry, page: nat, before: Moment, tree: Tree, swap: map<nat, seq<int>>)
    requires g.pageSize > 0
  {
    exists mem :: Walked(g, page, g.depth, before, Moment(tree, mem, swap))
  }

  lemma FaultIs(g: Geometry, page: nat, i: nat, before: Moment, after: Moment, tree1: Tree, swap1: map<nat, seq<int>>)
    requires g.pageSize > 0 && i < g.depth && page < g.pages
    requires WellFormed(g, before.tree) && LeavesArePages(g, before.tree)
    requires PathOf(g, page)[..i] in before.tree && PathOf(g, page)[..i + 1] !in before.tree
    requires PathOf(g, page)[..i + 1] in after.tree
    requires Chooses(g, before.tree, before.mem, before.swap, page, before.tree[PathOf(g, page)[..i]],
                     after.tree[PathOf(g, page)[..i + 1]], tree1, swap1)
    requires after.tree == tree1[PathOf(g, page)[..i + 1] := after.tree[PathOf(g, page)[..i + 1]]]
    requires after.swap == if i + 1 == g.depth then swap1 - {page} else swap1
    ensures Fault(g, page, i, before, after)
  {
    hide WellFormed, LeavesArePages, Chooses;
  }

  lemma WalkStarts(g: Geometry, page: nat, before: Moment)
    requires g.pageSize > 0
    ensures Walked(g, page, 0, before, before)
  {
  }

  lemma WalkGoesOn(g: Geometry, page: nat, i: nat, before: Moment, mid: Moment, now: Moment)
    requires g.pageSize > 0 && i < g.depth && Walked(g, page, i, before, mid)
    requires if PathOf(g, page)[..i + 1] in mid.tree then now == mid else Fault(g, page, i, mid, now)
    ensures Walked(g, page, i + 1, before, now)
  {
    hide Fault;
  }

  lemma TranslationIs(g: Geometry, page: nat, before: Moment, now: Moment)
    requires g.pageSize > 0 && Walked(g, page, g.depth, before, now)
    ensures Translated(g, page, before, now.tree, now.swap)
  {
    hide Walked;
    assert now == Moment(now.tree, now.mem, now.swap);
  }

  // ------------------------------------------------------------- what it means

  /** Reaching a resident page changes nothing: no frame moves and nothing is
      swapped. */
  lemma {:induction false} ResidentStays(g: Geometry, page: nat, i: nat, before: Moment, now: Moment)
    requires g.pageSize > 0 && i <= g.depth && Walked(g, page, i, before, now)
    requires WellFormed(g, before.tree) && PathOf(g, page) in before.tree
    ensures now == before
  {
    hide Fault, WellFormed;
    if i > 0 {
      var mid :| Walked(g, page, i - 1, before, mid)
        && if PathOf(g, page)[..i] in mid.tree then now == mid else Fault(g, page, i - 1, mid, now);
      ResidentStays(g, page, i - 1, before, mid);
      PrefixClosed(g, before.tree, PathOf(g, page), i);
    }
  }

  lemma ResidentUntouched(g: Geometry, page: nat, before: Moment, tree: Tree, swap: map<nat, seq<int>>)
    requires g.pageSize > 0 && Translated(g, page, before, tree, swap)
    requires WellFormed(g, before.tree) && PathOf(g, page) in before.tree
    ensures tree == before.tree && swap == before.swap
  {
    hide Walked, WellFormed;
    var mem :| Walked(g, page, g.depth, before, Moment(tree, mem, swap));
    ResidentStays(g, page, g.depth, before, Moment(tree, mem, swap));
  }

  /** An empty table other than the one the walk stands at. */
  ghost predicate Spare(g: Geometry, tree: Tree, at: Path, e: Path) {
    EmptyTable(g, tree, e) && e != at
  }

  /** `q` is resident, and every other resident page is nearer to `target` round
      the ring of pages, or as near and higher-numbered. */
  ghost predicate FarthestPage(g: Geometry, tree: Tree, target: nat, q: nat)
    requires g.pageSize > 0
  {
    && target < g.pages && q < g.pages && PathOf(g, q) in tree
    && forall r: nat :: r < g.pages && r != q && PathOf(g, r) in tree ==>
         || RingDistance(g.pages, target, r) < RingDistance(g.pages, target, q)
         || (RingDistance(g.pages, target, r) == RingDistance(g.pages, target, q) && q < r)
  }

  lemma FarthestIsPage(g: Geometry, tree: Tree, target: nat, q: Path)
    requires Admissible(g) && WellFormed(g, tree) && LeavesArePages(g, tree) && target < g.pages
    requires Farthest(g, tree, tree.Keys, target, 0, q)
    ensures q in tree && FarthestPage(g, tree, target, PathNumber(g.pageSize, q))
    ensures PathOf(g, PathNumber(g.pageSize, q)) == q
  {
    var page := PathNumber(g.pageSize, q);
    LeafIsPage(g, tree, q);
    forall r: nat | r < g.pages && r != page && PathOf(g, r) in tree
      ensures || RingDistance(g.pages, target, r) < RingDistance(g.pages, target, page)
              || (RingDistance(g.pages, target, r) == RingDistance(g.pages, target, page) && page < r)
    {
      PageHasNumber(g, r);
      EvictionPolicy(g, tree, target, q, PathOf(g, r));
    }
  }

  lemma PageHasNumber(g: Geometry, r: nat)
    requires Admissible(g) && r < g.pages
    ensures PathNumber(g.pageSize, PathOf(g, r)) == r
  {
    PathNumberOfPagePath(g.pageSize, g.depth, r);
  }

  /** The frame linked at `c` is that of a spare table, which is unlinked. */
  ghost predicate TakesSpare(g: Geometry, at: Path, c: Path, before: Moment, after: Moment) {
    exists e :: Spare(g, before.tree, at, e) && e in before.tree && after.tree == (before.tree - {e})[c := before.tree[e]]
  }

  /** It is that of the page farthest from `page`, which is unlinked. */
  ghost predicate TakesFarthest(g: Geometry, page: nat, c: Path, before: Moment, after: Moment, q: nat)
    requires g.pageSize > 0
  {
    && FarthestPage(g, before.tree, page, q)
    && after.tree == (before.tree - {PathOf(g, q)})[c := before.tree[PathOf(g, q)]]
    && before.tree[PathOf(g, q)] < |before.mem|
  }

  /** How a fault chooses its frame. If there is an empty table besides the one
      the walk stands at, such a table is unlinked and reused, and nothing is
      swapped out. Otherwise, while there are frames never used, the next one is
      taken and every link stays. Otherwise the resident page farthest from the
      page the walk goes to is unlinked, and its words go to the swap file. A
      fault at the last level takes the page itself out of the swap file. */
  lemma FaultPolicy(g: Geometry, page: nat, i: nat, before: Moment, after: Moment)
    requires Admissible(g) && i < g.depth && Fault(g, page, i, before, after)
    ensures var at, c := PathOf(g, page)[..i], PathOf(g, page)[..i + 1];
            var out := if i + 1 == g.depth then {page} else {};
            if exists e :: Spare(g, before.tree, at, e) then
              TakesSpare(g, at, c, before, after) && after.swap == before.swap - out
            else if |before.tree| < g.frames then
              after.tree == before.tree[c := |before.tree|] && after.swap == before.swap - out
            else
              exists q :: TakesFarthest(g, page, c, before, after, q)
                       && after.swap == before.swap[q := before.mem[before.tree[PathOf(g, q)]]] - out
  {
    hide Fault, Chooses, WellFormed, LeavesArePages, Spare, NoSpare, FarthestPage, Farthest, EmptyTable, PathOf;
    var tree1, swap1 := FaultParts(g, page, i, before, after);
    var at, c := PathOf(g, page)[..i], PathOf(g, page)[..i + 1];
    var frame := after.tree[c];
    SpareIsNot(g, before.tree, at);
    assert swap1 - {} == swap1;
    if NoSpare(g, before.tree, before.tree.Keys, before.tree[at]) {
      var q := ChoiceWithoutSpare(g, before.tree, before.mem, before.swap, page, before.tree[at], frame, tree1, swap1);
      if |before.tree| >= g.frames {
        FarthestIsPage(g, before.tree, page, q);
        assert TakesFarthest(g, page, c, before, after, PathNumber(g.pageSize, q));
      }
    } else {
      var e := ChoiceWithSpare(g, before.tree, before.mem, before.swap, page, before.tree[at], frame, tree1, swap1);
      SpareFrame(g, before.tree, at, e);
    }
  }

  lemma FaultParts(g: Geometry, page: nat, i: nat, before: Moment, after: Moment)
    returns (tree1: Tree, swap1: map<nat, seq<int>>)
    requires g.pageSize > 0 && i < g.depth && Fault(g, page, i, before, after)
    ensures var at, c := PathOf(g, page)[..i], PathOf(g, page)[..i + 1];
            && i < |PathOf(g, page)| && WellFormed(g, before.tree) && LeavesArePages(g, before.tree) && page < g.pages
            && at in before.tree && c !in before.tree && c in after.tree
            && Chooses(g, before.tree, before.mem, before.swap, page, before.tree[at], after.tree[c], tree1, swap1)
            && after.tree == tree1[c := after.tree[c]]
            && after.swap == if i + 1 == g.depth then swap1 - {page} else swap1
  {
    hide Chooses, WellFormed, LeavesArePages;
    var c := PathOf(g, page)[..i + 1];
    tree1, swap1 :| && Chooses(g, before.tree, before.mem, before.swap, page, before.tree[PathOf(g, page)[..i]], after.tree[c], tree1, swap1)
                    && after.tree == tree1[c := after.tree[c]]
                    && after.swap == if i + 1 == g.depth then swap1 - {page} else swap1;
  }

  lemma SpareFrame(g: Geometry, tree: Tree, at: Path, e: Path)
    requires WellFormed(g, tree) && at in tree && e in tree
    requires EmptyTable(g, tree, e) && tree[e] != tree[at]
    ensures Spare(g, tree, at, e)
  {
  }

  lemma SpareIsNot(g: Geometry, tree: Tree, at: Path)
    requires WellFormed(g, tree) && at in tree
    ensures (exists e :: Spare(g, tree, at, e)) <==> !NoSpare(g, tree, tree.Keys, tree[at])
  {
    if !NoSpare(g, tree, tree.Keys, tree[at]) {
      var e :| e in tree.Keys && EmptyTable(g, tree, e) && tree[e] != tree[at];
      assert Spare(g, tree, at, e);
    }
  }

  lemma ChoiceWithSpare(g: Geometry, tree: Tree, mem: Memory, swap: map<nat, seq<int>>, page: nat, oldFrame: nat,
                        frame: nat, tree': Tree, swap': map<nat, seq<int>>) returns (e: Path)
    requires Chooses(g, tree, mem, swap, page, oldFrame, frame, tree', swap')
    requires !NoSpare(g, tree, tree.Keys, oldFrame)
    ensures e in tree && EmptyTable(g, tree, e) && tree[e] != oldFrame && frame == tree[e]
    ensures tree' == tree - {e} && swap' == swap
  {
    assert Reclaims(g, tree, swap, oldFrame, frame, tree', swap');
    e :| FirstSpare(g, tree, tree.Keys, oldFrame, e)
      && e in tree && frame == tree[e] && tree' == tree - {e} && swap' == swap;
  }

  lemma ChoiceWithoutSpare(g: Geometry, tree: Tree, mem: Memory, swap: map<nat, seq<int>>, page: nat, oldFrame: nat,
                           frame: nat, tree': Tree, swap': map<nat, seq<int>>) returns (q: Path)
    requires Chooses(g, tree, mem, swap, page, oldFrame, frame, tree', swap')
    requires WellFormed(g, tree) && NoSpare(g, tree, tree.Keys, oldFrame)
    ensures |tree| < g.frames ==> frame == |tree| && tree' == tree && swap' == swap
    ensures |tree| >= g.frames ==>
              && Farthest(g, tree, tree.Keys, page, 0, q) && q in tree && frame == tree[q] && frame < |mem|
              && tree' == tree - {q} && swap' == swap[PathNumber(g.pageSize, q) := mem[frame]]
  {
    q := [];
    if |tree| >= g.frames {
      q :| Farthest(g, tree, tree.Keys, page, 0, q)
        && q in tree && frame == tree[q] && tree' == tree - {q}
        && frame < |mem| && swap' == swap[PathNumber(g.pageSize, q) := mem[frame]];
    }
  }

  /** Each page an access puts into the swap file was, at that moment, with
      every frame in use, the resident page farthest from the page accessed. */
  lemma {:induction false} EvictedWasFarthest(g: Geometry, page: nat, i: nat, before: Moment, now: Moment, q: nat)
    returns (k: nat, mid: Moment)
    requires Admissible(g) && i <= g.depth && Walked(g, page, i, before, now)
    requires q in now.swap && q !in before.swap
    ensures k < i && Walked(g, page, k, before, mid)
    ensures |mid.tree| >= g.frames && FarthestPage(g, mid.tree, page, q) && q !in mid.swap
  {
    hide Walked, Fault, FarthestPage, Spare, PathOf;
    var last := LastLevel(g, page, i, before, now);
    if q in last.swap {
      k, mid := EvictedWasFarthest(g, page, i - 1, before, last, q);
    } else {
      k, mid := i - 1, last;
      FaultPolicy(g, page, k, mid, now);
    }
  }

  lemma LastLevel(g: Geometry, page: nat, i: nat, before: Moment, now: Moment) returns (mid: Moment)
    requires g.pageSize > 0 && i <= g.depth && Walked(g, page, i, before, now) && now != before
    ensures i > 0 && Walked(g, page, i - 1, before, mid)
    ensures now == mid || Fault(g, page, i - 1, mid, now)
  {
    hide Fault;
    mid :| Walked(g, page, i - 1, before, mid)
      && if PathOf(g, page)[..i] in mid.tree then now == mid else Fault(g, page, i - 1, mid, now);
  }

  /** The same for a whole access, as `VMread` and `VMwrite` record it. */
  lemma AccessEvictsFarthest(g: Geometry, page: nat, before: Moment, tree: Tree, swap: map<nat, seq<int>>, q: nat)
    returns (k: nat, mid: Moment)
    requires Admissible(g) && Translated(g, page, before, tree, swap) && q in swap && q !in before.swap
    ensures k < g.depth && Walked(g, page, k, before, mid)
    ensures |mid.tree| >= g.frames && FarthestPage(g, mid.tree, page, q) && q !in mid.swap
  {
    hide Walked, FarthestPage;
    var mem :| Walked(g, page, g.depth, before, Moment(tree, mem, swap));
    k, mid := EvictedWasFarthest(g, page, g.depth, before, Moment(tree, mem, swap), q);
  }
}

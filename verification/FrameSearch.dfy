/** What the depth-first frame search must find: the first spare table, the
    largest linked frame, and the resident page farthest from the target. */
module FrameSearch {
  import opened PageNumbers
  import opened PhysicalMemory
  import opened PageTree

  /** What the search reports about one frame. */
  datatype RecursionFrame = RecursionFrame(frame: nat, parent: nat, unused: bool, depth: nat, offset: nat)

  /** A page that could be evicted, and its distance to the target page. */
  datatype Candidate = Candidate(page: nat, frame: nat, parent: nat, distance: nat, offset: nat)

  function Abs(x: int): nat {
    if x < 0 then -x else x
  }

  /** Distance between two pages when the last page is followed by the first. */
  function RingDistance(pages: nat, a: nat, b: nat): nat
    requires a < pages && b < pages
  {
    var d := Abs(a - b);
    if d < pages - d then d else pages - d
  }

  /** It is the least number of steps, forward or backward, round the ring. */
  lemma RingDistanceIsShortest(pages: nat, a: nat, b: nat, k: int)
    requires a < pages && b < pages
    ensures RingDistance(pages, a, b) <= Abs(a - b + k * pages)
    ensures RingDistance(pages, a, b) in {Abs(a - b), Abs(a - b + pages), Abs(a - b - pages)}
    ensures RingDistance(pages, a, b) == 0 <==> a == b
    ensures RingDistance(pages, a, b) == RingDistance(pages, b, a)
  {
    if k >= 1 {
      MulMonotone(1, k, pages);
    } else if k <= -1 {
      MulMonotone(1, -k, pages);
      assert k * pages == -((-k) * pages);
    }
  }

  /** Linked frames at and below `at`. */
  ghost function Region(tree: Tree, at: Path): set<Path> {
    set q | q in tree && at <= q
  }

  /** Linked frames reached from `at` through one of its first `j` cells. */
  ghost function Scanned(tree: Tree, at: Path, j: nat): set<Path> {
    set q | q in tree && at < q && q[|at|] < j
  }

  ghost predicate NoSpare(g: Geometry, tree: Tree, region: set<Path>, oldFrame: nat) {
    forall q :: q in region && EmptyTable(g, tree, q) ==> tree[q] == oldFrame
  }

  /** `e` is the first empty table in search order that is not `oldFrame`. */
  ghost predicate FirstSpare(g: Geometry, tree: Tree, region: set<Path>, oldFrame: nat, e: Path) {
    && e in region && EmptyTable(g, tree, e) && tree[e] != oldFrame
    && forall r :: r in region && EmptyTable(g, tree, r) && tree[r] != oldFrame ==> r == e || Before(e, r)
  }

  ghost predicate Reports(g: Geometry, tree: Tree, q: Path, r: RecursionFrame) {
    && q in tree && r.frame == tree[q] && r.depth == |q|
    && (r.unused <==> EmptyTable(g, tree, q))
    && (q != [] ==> Parent(q) in tree && r.parent == tree[Parent(q)] && r.offset == Last(q))
  }

  /** `m` is the largest of `init` and the frames of `region`. */
  ghost predicate Largest(tree: Tree, region: set<Path>, init: nat, m: nat) {
    && init <= m
    && (forall q :: q in region && q in tree ==> tree[q] <= m)
    && (m == init || exists q :: q in region && q in tree && tree[q] == m)
  }

  ghost predicate Describes(g: Geometry, tree: Tree, q: Path, c: Candidate) {
    && q in tree && q != [] && Parent(q) in tree
    && c.page == PathNumber(g.pageSize, q) && c.frame == tree[q]
    && c.parent == tree[Parent(q)] && c.offset == Last(q)
  }

  /** Distance from the target page to the page at leaf `q`. */
  ghost function LeafDistance(g: Geometry, target: nat, q: Path): nat {
    var page := PathNumber(g.pageSize, q);
    if target < g.pages && page < g.pages then RingDistance(g.pages, target, page) else 0
  }

  /** Leaf `q` is farther than `floor`, no leaf of `region` is farther, and
      the leaves as far come later. */
  ghost predicate Farthest(g: Geometry, tree: Tree, region: set<Path>, target: nat, floor: nat, q: Path) {
    && q in region && Leaf(g, tree, q) && LeafDistance(g, target, q) > floor
    && forall r :: r in region && Leaf(g, tree, r) ==>
         || r == q
         || LeafDistance(g, target, r) < LeafDistance(g, target, q)
         || (LeafDistance(g, target, r) == LeafDistance(g, target, q) && Before(q, r))
  }

  ghost predicate BestOf(g: Geometry, tree: Tree, region: set<Path>, target: nat, init: Candidate, best: Candidate) {
    || (best == init && forall q :: q in region && Leaf(g, tree, q) ==> LeafDistance(g, target, q) <= init.distance)
    || exists q :: && Farthest(g, tree, region, target, init.distance, q)
                   && Describes(g, tree, q, best) && best.distance == LeafDistance(g, target, q)
  }

  // ------------------------------------------------- scanning one more cell

  lemma ScanEmptyCell(g: Geometry, tree: Tree, at: Path, j: nat)
    requires WellFormed(g, tree) && Child(at, j) !in tree
    ensures Scanned(tree, at, j + 1) == Scanned(tree, at, j)
  {
    forall q | q in Scanned(tree, at, j + 1) ensures q in Scanned(tree, at, j) {
      StepDown(g, tree, at, q);
    }
  }

  lemma ScanUsedCell(g: Geometry, tree: Tree, at: Path, j: nat)
    requires WellFormed(g, tree)
    ensures Scanned(tree, at, j + 1) == Scanned(tree, at, j) + Region(tree, Child(at, j))
  {
    var c := Child(at, j);
    forall q | q in Scanned(tree, at, j + 1) && q[|at|] == j ensures c <= q {
      StepDown(g, tree, at, q);
    }
    forall q | q in Region(tree, c) ensures q in Scanned(tree, at, j + 1) {
      assert q[|at|] == c[|at|] && q[..|at|] == c[..|at|] == at;
    }
  }

  lemma ScanDone(g: Geometry, tree: Tree, at: Path)
    requires WellFormed(g, tree) && at in tree
    ensures Region(tree, at) == Scanned(tree, at, g.pageSize) + {at}
  {
    forall q | q in Region(tree, at) && q != at ensures q in Scanned(tree, at, g.pageSize) {
      StepDown(g, tree, at, q);
    }
  }

  /** Everything under cell `j` precedes everything under a later cell. */
  lemma CellsAreOrdered(at: Path, a: Path, b: Path)
    requires at < a && at < b && a[|at|] < b[|at|]
    ensures Before(a, b)
  {
    assert a[..|at|] == at == b[..|at|];
  }

  /** The spare found under cell `j` is the first of the whole table. */
  lemma FirstSpareHere(g: Geometry, tree: Tree, at: Path, j: nat, oldFrame: nat, e: Path)
    requires WellFormed(g, tree) && at in tree && Child(at, j) in tree
    requires NoSpare(g, tree, Scanned(tree, at, j), oldFrame)
    requires FirstSpare(g, tree, Region(tree, Child(at, j)), oldFrame, e)
    ensures FirstSpare(g, tree, Region(tree, at), oldFrame, e)
  {
    var c := Child(at, j);
    assert !EmptyTable(g, tree, at);
    assert e[|at|] == c[|at|] == j && at < e by {
      assert e[..|at|] == c[..|at|] == at;
    }
    forall r | r in Region(tree, at) && EmptyTable(g, tree, r) && tree[r] != oldFrame
      ensures r == e || Before(e, r)
    {
      if r != at {
        StepDown(g, tree, at, r);
        assert r[|at|] < j ==> r in Scanned(tree, at, j);
        if r[|at|] > j {
          CellsAreOrdered(at, e, r);
        } else if r[|at|] == j {
          assert r in Region(tree, c);
        }
      }
    }
  }

  lemma LargestJoin(tree: Tree, a: set<Path>, b: set<Path>, init: nat, mid: nat, m: nat)
    requires Largest(tree, a, init, mid) && Largest(tree, b, mid, m)
    ensures Largest(tree, a + b, init, m)
  {
  }

  lemma LargestWithRoot(tree: Tree, c: Path, init: nat, below: nat, m: nat)
    requires c in tree && Largest(tree, Region(tree, c) - {c}, init, below)
    requires m == if below < tree[c] then tree[c] else below
    ensures Largest(tree, Region(tree, c), init, m)
  {
    assert c in Region(tree, c);
  }

  lemma BestJoin(g: Geometry, tree: Tree, a: set<Path>, b: set<Path>, target: nat,
                 init: Candidate, mid: Candidate, best: Candidate)
    requires BestOf(g, tree, a, target, init, mid) && BestOf(g, tree, b, target, mid, best)
    requires forall p, q :: p in a && q in b ==> Before(p, q)
    ensures BestOf(g, tree, a + b, target, init, best)
  {
    if best == mid && (forall q :: q in b && Leaf(g, tree, q) ==> LeafDistance(g, target, q) <= mid.distance) {
      if !(mid == init && forall q :: q in a && Leaf(g, tree, q) ==> LeafDistance(g, target, q) <= init.distance) {
        var q :| && Farthest(g, tree, a, target, init.distance, q)
                 && Describes(g, tree, q, mid) && mid.distance == LeafDistance(g, target, q);
        assert Farthest(g, tree, a + b, target, init.distance, q);
      }
    } else {
      var q :| && Farthest(g, tree, b, target, mid.distance, q)
               && Describes(g, tree, q, best) && best.distance == LeafDistance(g, target, q);
      assert Farthest(g, tree, a + b, target, init.distance, q);
    }
  }

  lemma OrderedRegions(g: Geometry, tree: Tree, at: Path, j: nat)
    requires WellFormed(g, tree)
    ensures forall p, q :: p in Scanned(tree, at, j) && q in Region(tree, Child(at, j)) ==> Before(p, q)
  {
    var c := Child(at, j);
    forall p, q | p in Scanned(tree, at, j) && q in Region(tree, c) ensures Before(p, q) {
      assert q[|at|] == c[|at|] && q[..|at|] == c[..|at|] == at;
      CellsAreOrdered(at, p, q);
    }
  }

  // ------------------------------------------------------ one call of the search

  /** What the search of the subtree at `at` returns: the first spare table if
      there is one; otherwise `at` itself, with the farthest page and the
      largest frame brought up to date. */
  ghost predicate Searched(g: Geometry, tree: Tree, at: Path, oldFrame: nat, target: nat,
                           init: Candidate, initMax: nat, found: RecursionFrame, best: Candidate, maximal: nat)
  {
    && (found.unused && found.frame != oldFrame <==> !NoSpare(g, tree, Region(tree, at), oldFrame))
    && (if NoSpare(g, tree, Region(tree, at), oldFrame) then
          && Reports(g, tree, at, found)
          && BestOf(g, tree, Region(tree, at), target, init, best)
          && Largest(tree, Region(tree, at) - {at}, initMax, maximal)
        else
          exists e :: FirstSpare(g, tree, Region(tree, at), oldFrame, e) && Reports(g, tree, e, found))
  }

  /** What is known after the first `j` cells of table `at`. */
  ghost predicate ScannedUpTo(g: Geometry, tree: Tree, at: Path, j: nat, oldFrame: nat, target: nat,
                              init: Candidate, initMax: nat, unused: bool, best: Candidate, maximal: nat)
  {
    && (unused <==> forall k: nat :: k < j ==> Child(at, k) !in tree)
    && NoSpare(g, tree, Scanned(tree, at, j), oldFrame)
    && BestOf(g, tree, Scanned(tree, at, j), target, init, best)
    && Largest(tree, Scanned(tree, at, j), initMax, maximal)
  }

  lemma SearchLeaf(g: Geometry, tree: Tree, at: Path, oldFrame: nat, target: nat,
                   init: Candidate, initMax: nat, found: RecursionFrame, best: Candidate)
    requires WellFormed(g, tree) && Leaf(g, tree, at) && at != [] && Parent(at) in tree
    requires found == RecursionFrame(tree[at], tree[Parent(at)], false, |at|, Last(at))
    requires target < g.pages && PathNumber(g.pageSize, at) < g.pages
    requires var d := RingDistance(g.pages, target, PathNumber(g.pageSize, at));
             best == if d > init.distance
                     then Candidate(PathNumber(g.pageSize, at), found.frame, found.parent, d, found.offset)
                     else init
    ensures Searched(g, tree, at, oldFrame, target, init, initMax, found, best, initMax)
  {
    assert Region(tree, at) == {at} by {
      forall q | q in Region(tree, at) ensures q == at {
      }
    }
    if LeafDistance(g, target, at) > init.distance {
      assert Farthest(g, tree, {at}, target, init.distance, at);
    }
  }

  lemma ScanStart(g: Geometry, tree: Tree, at: Path, oldFrame: nat, target: nat, init: Candidate, initMax: nat)
    ensures ScannedUpTo(g, tree, at, 0, oldFrame, target, init, initMax, true, init, initMax)
  {
    assert Scanned(tree, at, 0) == {};
  }

  lemma ScanSkip(g: Geometry, tree: Tree, at: Path, j: nat, oldFrame: nat, target: nat,
                 init: Candidate, initMax: nat, unused: bool, best: Candidate, maximal: nat)
    requires WellFormed(g, tree) && Child(at, j) !in tree
    requires ScannedUpTo(g, tree, at, j, oldFrame, target, init, initMax, unused, best, maximal)
    ensures ScannedUpTo(g, tree, at, j + 1, oldFrame, target, init, initMax, unused, best, maximal)
  {
    ScanEmptyCell(g, tree, at, j);
  }

  lemma ScanVisit(g: Geometry, tree: Tree, at: Path, j: nat, oldFrame: nat, target: nat,
                  init: Candidate, initMax: nat, unused: bool, best: Candidate, maximal: nat,
                  child: RecursionFrame, best': Candidate, below: nat)
    requires WellFormed(g, tree) && Child(at, j) in tree
    requires ScannedUpTo(g, tree, at, j, oldFrame, target, init, initMax, unused, best, maximal)
    requires Searched(g, tree, Child(at, j), oldFrame, target, best, maximal, child, best', below)
    requires !(child.unused && oldFrame != child.frame)
    ensures ScannedUpTo(g, tree, at, j + 1, oldFrame, target, init, initMax, false, best',
                        if below < child.frame then child.frame else below)
  {
    var c := Child(at, j);
    var maximal' := if below < child.frame then child.frame else below;
    ScanUsedCell(g, tree, at, j);
    OrderedRegions(g, tree, at, j);
    BestJoin(g, tree, Scanned(tree, at, j), Region(tree, c), target, init, best, best');
    LargestWithRoot(tree, c, maximal, below, maximal');
    LargestJoin(tree, Scanned(tree, at, j), Region(tree, c), initMax, maximal, maximal');
  }

  lemma ScanFinds(g: Geometry, tree: Tree, at: Path, j: nat, oldFrame: nat, target: nat,
                  init: Candidate, initMax: nat, unused: bool, best: Candidate, maximal: nat,
                  child: RecursionFrame, best': Candidate, below: nat, maximal': nat)
    requires WellFormed(g, tree) && at in tree && Child(at, j) in tree
    requires ScannedUpTo(g, tree, at, j, oldFrame, target, init, initMax, unused, best, maximal)
    requires Searched(g, tree, Child(at, j), oldFrame, target, best, maximal, child, best', below)
    requires child.unused && oldFrame != child.frame
    ensures Searched(g, tree, at, oldFrame, target, init, initMax, child, best', maximal')
  {
    var c := Child(at, j);
    var e :| FirstSpare(g, tree, Region(tree, c), oldFrame, e) && Reports(g, tree, e, child);
    FirstSpareHere(g, tree, at, j, oldFrame, e);
  }

  lemma ScanEnd(g: Geometry, tree: Tree, at: Path, oldFrame: nat, target: nat,
                init: Candidate, initMax: nat, best: Candidate, maximal: nat, found: RecursionFrame)
    requires WellFormed(g, tree) && at in tree && |at| < g.depth
    requires ScannedUpTo(g, tree, at, g.pageSize, oldFrame, target, init, initMax, found.unused, best, maximal)
    requires found.frame == tree[at] && found.depth == |at|
    requires at != [] ==> Parent(at) in tree && found.parent == tree[Parent(at)] && found.offset == Last(at)
    ensures Searched(g, tree, at, oldFrame, target, init, initMax, found, best, maximal)
  {
    assert found.unused <==> EmptyTable(g, tree, at);
    ScanDone(g, tree, at);
    var rest := Scanned(tree, at, g.pageSize);
    assert Region(tree, at) - {at} == rest;
    if found.unused && found.frame != oldFrame {
      forall r | r in Region(tree, at) && EmptyTable(g, tree, r) && tree[r] != oldFrame ensures r == at {
      }
      assert FirstSpare(g, tree, Region(tree, at), oldFrame, at);
    } else {
      BestWithTable(g, tree, rest, at, target, init, best);
    }
  }

  /** A table adds nothing to the choice of a page. */
  lemma BestWithTable(g: Geometry, tree: Tree, a: set<Path>, at: Path, target: nat, init: Candidate, best: Candidate)
    requires |at| < g.depth && BestOf(g, tree, a, target, init, best)
    ensures BestOf(g, tree, a + {at}, target, init, best)
  {
    if !(best == init && forall q :: q in a && Leaf(g, tree, q) ==> LeafDistance(g, target, q) <= init.distance) {
      var q :| && Farthest(g, tree, a, target, init.distance, q)
               && Describes(g, tree, q, best) && best.distance == LeafDistance(g, target, q);
      assert Farthest(g, tree, a + {at}, target, init.distance, q);
    }
  }
}

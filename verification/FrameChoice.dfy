/** The three ways a missing page-table entry gets a frame, and what each does
    to the tree, the swap file and the walk that met the empty cell. */
module FrameChoice {
  import opened PageNumbers
  import opened PhysicalMemory
  import opened PageTree
  import opened FrameSearch

  lemma FrameFacts(g: Geometry, mem: Memory, tree: Tree, at: Path)
    requires Admissible(g) && IsView(g, mem, tree) && LeavesArePages(g, tree) && at in tree
    ensures g.pageSize > 0 && WellFormed(g, tree) && |mem| == g.frames
    ensures |at| <= g.depth && tree[at] < g.frames && |mem[tree[at]]| == g.pageSize
    ensures |at| == g.depth ==> at != [] && Leaf(g, tree, at) && PathNumber(g.pageSize, at) < g.pages
  {
  }

  lemma CellIsLink(g: Geometry, mem: Memory, tree: Tree, at: Path, j: nat)
    requires IsView(g, mem, tree) && at in tree && |at| < g.depth && j < g.pageSize
    ensures |mem| == g.frames && tree[at] < g.frames && |mem[tree[at]]| == g.pageSize
    ensures mem[tree[at]][j] == LinkTo(tree, Child(at, j))
    ensures mem[tree[at]][j] != 0 <==> Child(at, j) in tree
    ensures Child(at, j) in tree ==> mem[tree[at]][j] == tree[Child(at, j)]
    ensures |Child(at, j)| == |at| + 1
  {
    if Child(at, j) in tree {
      ParentOfChild(at, j);
      assert tree[Child(at, j)] != tree[[]];
    }
  }

  // -------------------------------------------------------------- initial state

  lemma EmptyTreeIsView(g: Geometry, mem: Memory)
    requires Admissible(g) && Shaped(g, mem) && mem[0] == seq(g.pageSize, _ => 0)
    ensures IsView(g, mem, map[[] := 0]) && Contiguous(map[[] := 0])
    ensures OneSpareTable(g, map[[] := 0], [])
  {
  }

  lemma EmptyTreeHoldsSwap(g: Geometry, mem: Memory, swap: map<nat, seq<int>>)
    requires Admissible(g) && IsView(g, mem, map[[] := 0])
    requires forall page :: page in swap ==> page < g.pages && |swap[page]| == g.pageSize
    ensures Consistent(g, mem, map[[] := 0], swap)
    ensures Contents(g, mem, map[[] := 0], swap) == swap
  {
    forall page: nat ensures PathOf(g, page) != [] {
    }
  }

  // ---------------------------------------------------------- choosing a frame

  /** The frame `EmptyFrame` picks and what it does to the tree and the swap. */
  ghost predicate Chooses(g: Geometry, tree: Tree, mem: Memory, swap: map<nat, seq<int>>,
                          pageNum: nat, oldFrame: nat, frame: nat, tree': Tree, swap': map<nat, seq<int>>)
  {
    || Reclaims(g, tree, swap, oldFrame, frame, tree', swap')
    || (&& NoSpare(g, tree, tree.Keys, oldFrame) && |tree| < g.frames
        && frame == |tree| && tree' == tree && swap' == swap)
    || (&& NoSpare(g, tree, tree.Keys, oldFrame) && |tree| == g.frames
        && Evicts(g, tree, mem, swap, pageNum, frame, tree', swap'))
  }

  ghost predicate Reclaims(g: Geometry, tree: Tree, swap: map<nat, seq<int>>,
                           oldFrame: nat, frame: nat, tree': Tree, swap': map<nat, seq<int>>)
  {
    exists e :: FirstSpare(g, tree, tree.Keys, oldFrame, e)
             && e in tree && frame == tree[e] && tree' == tree - {e} && swap' == swap
  }

  ghost predicate Evicts(g: Geometry, tree: Tree, mem: Memory, swap: map<nat, seq<int>>,
                         pageNum: nat, frame: nat, tree': Tree, swap': map<nat, seq<int>>)
  {
    exists q :: Farthest(g, tree, tree.Keys, pageNum, 0, q)
             && q in tree && frame == tree[q] && tree' == tree - {q}
             && frame < |mem| && swap' == swap[PathNumber(g.pageSize, q) := mem[frame]]
  }

  lemma WholeTree(tree: Tree)
    ensures Region(tree, []) == tree.Keys
  {
  }

  lemma SpareIsNotRoot(g: Geometry, tree: Tree, at: Path, e: Path)
    requires WellFormed(g, tree) && at in tree && EmptyTable(g, tree, e) && tree[e] != tree[at]
    ensures e != []
  {
    if e == [] {
      StepDown(g, tree, e, at);
      assert false;
    }
  }

  lemma LargestInTree(g: Geometry, tree: Tree, m: nat)
    requires WellFormed(g, tree) && Contiguous(tree) && Largest(tree, tree.Keys - {[]}, 0, m)
    ensures m + 1 == |tree|
  {
    assert m in tree.Values by {
      if m == 0 {
        assert tree[[]] == 0;
      }
    }
    forall p | p in tree ensures tree[p] <= m {
      if p != [] {
        assert p in tree.Keys - {[]};
      }
    }
    LargestFrame(g, tree, m);
  }

  /** With every frame linked and no spare table there is a page to evict. */
  lemma FarthestExists(g: Geometry, tree: Tree, at: Path, target: nat, oldFrame: nat, init: Candidate, best: Candidate)
    requires Admissible(g) && WellFormed(g, tree) && LeavesArePages(g, tree) && |tree| == g.frames
    requires at in tree && |at| < g.depth && tree[at] == oldFrame
    requires target < g.pages && PathOf(g, target) !in tree
    requires NoSpare(g, tree, tree.Keys, oldFrame)
    requires init.distance == 0 && BestOf(g, tree, tree.Keys, target, init, best)
    ensures exists q :: Farthest(g, tree, tree.Keys, target, 0, q) && Describes(g, tree, q, best)
  {
    var leaf := LeafExists(g, tree, at);
    var page := PathNumber(g.pageSize, leaf);
    LeafIsPage(g, tree, leaf);
    RingDistanceIsShortest(g.pages, target, page, 0);
    assert LeafDistance(g, target, leaf) > 0;
  }

  /** The page evicted is the resident page farthest from the target round the
      ring of pages; of several as far, the lowest-numbered. */
  lemma {:induction false} EvictionPolicy(g: Geometry, tree: Tree, target: nat, q: Path, r: Path)
    requires Admissible(g) && WellFormed(g, tree) && LeavesArePages(g, tree) && target < g.pages
    requires Farthest(g, tree, tree.Keys, target, 0, q) && Leaf(g, tree, r) && r != q
    ensures var p, p' := PathNumber(g.pageSize, q), PathNumber(g.pageSize, r);
            && p < g.pages && p' < g.pages && 0 < RingDistance(g.pages, target, p)
            && (|| RingDistance(g.pages, target, p') < RingDistance(g.pages, target, p)
                || (RingDistance(g.pages, target, p') == RingDistance(g.pages, target, p) && p < p'))
  {
    assert r in tree.Keys;
    if LeafDistance(g, target, r) == LeafDistance(g, target, q) {
      PathsAreDigits(g, tree, q);
      PathsAreDigits(g, tree, r);
      BeforeIsLess(g.pageSize, q, r);
    }
  }

  /** The frame whose link is cut: not the table of the walk, and the only
      table besides it that can have been empty. */
  ghost predicate Moves(g: Geometry, tree: Tree, at: Path, frame: nat, tree': Tree, q: Path) {
    && q in tree && frame == tree[q] && tree' == tree - {q} && q != at && q != []
    && (EmptyTable(g, tree, q) || Leaf(g, tree, q))
    && forall e :: EmptyTable(g, tree, e) ==> e == at || e == q
  }

  lemma ChoiceMoves(g: Geometry, tree: Tree, mem: Memory, swap: map<nat, seq<int>>,
                    pageNum: nat, oldFrame: nat, frame: nat, tree': Tree, swap': map<nat, seq<int>>, at: Path)
    requires WellFormed(g, tree) && OneSpareTable(g, tree, at)
    requires at in tree && |at| < g.depth && tree[at] == oldFrame
    requires Chooses(g, tree, mem, swap, pageNum, oldFrame, frame, tree', swap')
    ensures || (tree' == tree && frame == |tree| && forall e :: EmptyTable(g, tree, e) ==> e == at)
            || exists q :: Moves(g, tree, at, frame, tree', q)
  {
    if Reclaims(g, tree, swap, oldFrame, frame, tree', swap') {
      var e :| FirstSpare(g, tree, tree.Keys, oldFrame, e)
            && e in tree && frame == tree[e] && tree' == tree - {e} && swap' == swap;
      SpareIsNotRoot(g, tree, at, e);
      assert Moves(g, tree, at, frame, tree', e);
    } else {
      forall e | EmptyTable(g, tree, e) ensures e == at {
        assert e in tree.Keys;
      }
      if |tree| == g.frames {
        var q :| Farthest(g, tree, tree.Keys, pageNum, 0, q)
              && q in tree && frame == tree[q] && tree' == tree - {q};
        assert Moves(g, tree, at, frame, tree', q);
      }
    }
  }

  /** A link is cut outside the walk, so the walk so far keeps all its links. */
  lemma PrefixesStay(g: Geometry, tree: Tree, at: Path, q: Path, k: nat)
    requires WellFormed(g, tree) && at in tree && q in tree && q != at && k <= |at|
    requires EmptyTable(g, tree, q) || Leaf(g, tree, q)
    ensures at[..k] in tree && at[..k] != q
  {
    PrefixClosed(g, tree, at, k);
    if at[..k] == q {
      StepDown(g, tree, q, at);
      assert false;
    }
  }

  /** Whatever frame is chosen, the walk so far keeps all its links, the empty
      cell stays empty, and linking the frame there keeps the frame numbers
      contiguous with at most one spare table besides the new frame. */
  lemma WalkSurvives(g: Geometry, tree: Tree, mem: Memory, swap: map<nat, seq<int>>,
                     pageNum: nat, oldFrame: nat, frame: nat, tree': Tree, swap': map<nat, seq<int>>,
                     at: Path, idx: nat)
    requires WellFormed(g, tree) && Contiguous(tree) && OneSpareTable(g, tree, at)
    requires at in tree && |at| < g.depth && tree[at] == oldFrame
    requires idx < g.pageSize && Child(at, idx) !in tree
    requires Chooses(g, tree, mem, swap, pageNum, oldFrame, frame, tree', swap')
    ensures Child(at, idx) !in tree' && SamePrefixes(tree, tree', at)
    ensures Contiguous(tree'[Child(at, idx) := frame])
    ensures OneSpareTable(g, tree'[Child(at, idx) := frame], Child(at, idx))
  {
    ChoiceMoves(g, tree, mem, swap, pageNum, oldFrame, frame, tree', swap', at);
    hide *;
    if q :| Moves(g, tree, at, frame, tree', q) {
      SurvivesMove(g, tree, at, idx, frame, tree', q);
    } else {
      SurvivesFresh(g, tree, at, idx, frame);
    }
  }

  ghost predicate SamePrefixes(tree: Tree, tree': Tree, at: Path) {
    && at in tree && at in tree' && tree[at] == tree'[at]
    && forall k :: 0 <= k <= |at| ==> at[..k] in tree && at[..k] in tree' && tree'[at[..k]] == tree[at[..k]]
  }

  lemma LinkKeepsPrefixes(tree: Tree, tree': Tree, at: Path, idx: nat, frame: nat)
    requires SamePrefixes(tree, tree', at)
    ensures SamePrefixes(tree, tree'[Child(at, idx) := frame], at)
    ensures Child(at, idx) in tree'[Child(at, idx) := frame]
  {
  }

  lemma SurvivesMove(g: Geometry, tree: Tree, at: Path, idx: nat, frame: nat, tree': Tree, q: Path)
    requires WellFormed(g, tree) && Contiguous(tree)
    requires at in tree && idx < g.pageSize && Child(at, idx) !in tree
    requires Moves(g, tree, at, frame, tree', q)
    ensures Child(at, idx) !in tree' && SamePrefixes(tree, tree', at)
    ensures Contiguous(tree'[Child(at, idx) := frame])
    ensures OneSpareTable(g, tree'[Child(at, idx) := frame], Child(at, idx))
  {
    var c := Child(at, idx);
    var linked := tree'[c := frame];
    SpareAfterMove(g, tree, at, idx, q, frame, linked);
    hide EmptyTable;
    forall k | 0 <= k <= |at| ensures at[..k] in tree && at[..k] != q {
      PrefixesStay(g, tree, at, q, k);
    }
    assert linked.Keys == (tree.Keys - {q}) + {c};
    assert |linked.Keys| == |tree.Keys|;
    assert |linked| == |tree|;
  }

  lemma SurvivesFresh(g: Geometry, tree: Tree, at: Path, idx: nat, frame: nat)
    requires WellFormed(g, tree) && Contiguous(tree)
    requires at in tree && idx < g.pageSize && Child(at, idx) !in tree
    requires frame == |tree| && forall e :: EmptyTable(g, tree, e) ==> e == at
    ensures SamePrefixes(tree, tree, at)
    ensures Contiguous(tree[Child(at, idx) := frame])
    ensures OneSpareTable(g, tree[Child(at, idx) := frame], Child(at, idx))
  {
    var linked := tree[Child(at, idx) := frame];
    SpareAfterFresh(g, tree, at, idx, frame, linked);
    hide EmptyTable;
    forall k | 0 <= k <= |at| ensures at[..k] in tree {
      PrefixClosed(g, tree, at, k);
    }
    assert linked.Keys == tree.Keys + {Child(at, idx)};
    assert |linked.Keys| == |tree.Keys| + 1;
  }

  // ------------------------------------------- from the search to the choice

  /** The test the code makes tells whether there is a spare table. */
  lemma SpareTest(g: Geometry, tree: Tree, oldFrame: nat, target: nat, init: Candidate,
                  found: RecursionFrame, best: Candidate, maximal: nat)
    requires Searched(g, tree, [], oldFrame, target, init, 0, found, best, maximal)
    ensures (found.unused && found.depth < g.depth && found.frame != oldFrame)
            <==> !NoSpare(g, tree, tree.Keys, oldFrame)
  {
    WholeTree(tree);
  }

  /** Cutting the link of the reported spare table. */
  lemma ReclaimFound(g: Geometry, mem: Memory, tree: Tree, swap: map<nat, seq<int>>, at: Path,
                     oldFrame: nat, target: nat, init: Candidate, found: RecursionFrame, best: Candidate, maximal: nat)
    returns (e: Path)
    requires Admissible(g) && Consistent(g, mem, tree, swap) && at in tree && tree[at] == oldFrame
    requires Searched(g, tree, [], oldFrame, target, init, 0, found, best, maximal)
    requires !NoSpare(g, tree, tree.Keys, oldFrame)
    ensures found.parent < g.frames && found.offset < g.pageSize
    ensures |mem| == g.frames && |mem[found.parent]| == g.pageSize
    ensures var mem', tree' := Poke(mem, found.parent, found.offset, 0), tree - {e};
            && Consistent(g, mem', tree', swap)
            && Contents(g, mem', tree', swap) == Contents(g, mem, tree, swap)
            && 0 < found.frame < g.frames && found.frame !in tree'.Values
            && Chooses(g, tree, mem, swap, target, oldFrame, found.frame, tree', swap)
  {
    WholeTree(tree);
    e :| FirstSpare(g, tree, tree.Keys, oldFrame, e) && Reports(g, tree, e, found);
    SpareIsNotRoot(g, tree, at, e);
    ReclaimKeepsPages(g, mem, tree, swap, e);
    NowUnlinked(g, tree, e);
    assert Reclaims(g, tree, swap, oldFrame, found.frame, tree - {e}, swap);
  }

  lemma NowUnlinked(g: Geometry, tree: Tree, q: Path)
    requires WellFormed(g, tree) && q in tree && q != []
    ensures 0 < tree[q] < g.frames && tree[q] !in (tree - {q}).Values
  {
    assert tree[q] != tree[[]];
  }

  /** Without a spare table the search has seen every linked frame. */
  lemma FreshFound(g: Geometry, tree: Tree, oldFrame: nat, target: nat, init: Candidate,
                   found: RecursionFrame, best: Candidate, maximal: nat)
    requires Admissible(g) && WellFormed(g, tree) && Contiguous(tree)
    requires Searched(g, tree, [], oldFrame, target, init, 0, found, best, maximal)
    requires NoSpare(g, tree, tree.Keys, oldFrame)
    ensures maximal + 1 == |tree| <= g.frames && maximal + 1 !in tree.Values
  {
    WholeTree(tree);
    LargestInTree(g, tree, maximal);
    LinkedFramesAreContiguous(g, tree);
    BelowSize(|tree|);
  }

  lemma ChoosesFresh(g: Geometry, tree: Tree, mem: Memory, swap: map<nat, seq<int>>, pageNum: nat, oldFrame: nat)
    requires NoSpare(g, tree, tree.Keys, oldFrame) && |tree| < g.frames
    ensures Chooses(g, tree, mem, swap, pageNum, oldFrame, |tree|, tree, swap)
  {
  }

  /** Evicting the reported page and cutting its link. */
  lemma EvictFound(g: Geometry, mem: Memory, tree: Tree, swap: map<nat, seq<int>>, at: Path,
                   oldFrame: nat, target: nat, init: Candidate, found: RecursionFrame, best: Candidate, maximal: nat)
    returns (q: Path)
    requires Admissible(g) && Consistent(g, mem, tree, swap)
    requires at in tree && |at| < g.depth && tree[at] == oldFrame
    requires target < g.pages && PathOf(g, target) !in tree && |tree| == g.frames && init.distance == 0
    requires Searched(g, tree, [], oldFrame, target, init, 0, found, best, maximal)
    requires NoSpare(g, tree, tree.Keys, oldFrame)
    ensures best.parent < g.frames && best.offset < g.pageSize && best.page < g.pages && best.page !in swap
    ensures |mem| == g.frames && |mem[best.parent]| == g.pageSize
    ensures 0 < best.frame < g.frames && best.frame !in (tree - {q}).Values
    ensures var mem', tree' := Poke(mem, best.parent, best.offset, 0), tree - {q};
            var swap' := swap[best.page := mem[best.frame]];
            && Consistent(g, mem', tree', swap')
            && Contents(g, mem', tree', swap') == Contents(g, mem, tree, swap)
            && Chooses(g, tree, mem, swap, target, oldFrame, best.frame, tree', swap')
  {
    WholeTree(tree);
    FarthestExists(g, tree, at, target, oldFrame, init, best);
    q :| Farthest(g, tree, tree.Keys, target, 0, q) && Describes(g, tree, q, best);
    EvictKeepsPages(g, mem, tree, swap, q);
    NowUnlinked(g, tree, q);
    assert Evicts(g, tree, mem, swap, target, best.frame, tree - {q}, swap[best.page := mem[best.frame]]);
  }
}

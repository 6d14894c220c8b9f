/** What the nonzero cells reachable from frame 0 mean: the tree of linked
    frames, and the words every page ever touched holds. Nothing here is
    stored by the program; it is how its RAM and swap file are read. */
module PageTree {
  import opened PageNumbers
  import opened PhysicalMemory

  /** Linked frames by the table indices that lead to them from frame 0. */
  type Tree = map<Path, nat>

  /** The constants the code is compiled with: at least two cells to a table,
      more frames than levels, page numbers that fit the table indices. */
  ghost predicate Admissible(g: Geometry) {
    && 2 <= g.pageSize
    && 1 <= g.depth < g.frames
    && 1 <= g.pages <= Pow(g.pageSize, g.depth)
  }

  /** The sizes in `MemoryConstants.h`. */
  const CODE_SIZES := Geometry(16, 64, 65536, 4)

  lemma CodeIsAdmissible()
    ensures Admissible(CODE_SIZES)
    ensures CODE_SIZES.pageSize * CODE_SIZES.frames == 1024 && CODE_SIZES.pageSize * CODE_SIZES.pages == 1048576
    ensures Pow(CODE_SIZES.pageSize, CODE_SIZES.depth) == CODE_SIZES.pages
  {
    assert Pow(16, 1) == 16 && Pow(16, 2) == 256 && Pow(16, 3) == 4096;
  }

  ghost predicate WellFormed(g: Geometry, tree: Tree) {
    && [] in tree && tree[[]] == 0
    && (forall p :: p in tree ==> |p| <= g.depth && tree[p] < g.frames)
    && (forall p, j: nat :: Child(p, j) in tree ==> p in tree && j < g.pageSize)
    && (forall p, q :: p in tree && q in tree && tree[p] == tree[q] ==> p == q)
  }

  /** The word a table must hold for the subtree at `q`. */
  function LinkTo(tree: Tree, q: Path): nat {
    if q in tree then tree[q] else 0
  }

  ghost predicate Mirrors(g: Geometry, mem: Memory, tree: Tree)
    requires Shaped(g, mem) && WellFormed(g, tree)
  {
    forall p, j: nat :: p in tree && |p| < g.depth && j < g.pageSize ==>
      mem[tree[p]][j] == LinkTo(tree, Child(p, j))
  }

  /** `tree` is exactly the structure stored in `mem`. */
  ghost predicate IsView(g: Geometry, mem: Memory, tree: Tree) {
    Shaped(g, mem) && WellFormed(g, tree) && Mirrors(g, mem, tree)
  }

  /** The linked frames are an initial segment of the frame numbers. */
  ghost predicate Contiguous(tree: Tree) {
    forall p :: p in tree ==> tree[p] < |tree|
  }

  /** Every leaf holds a page of the virtual memory. */
  ghost predicate LeavesArePages(g: Geometry, tree: Tree) {
    forall p :: p in tree && |p| == g.depth ==> PathNumber(g.pageSize, p) < g.pages
  }

  function PathOf(g: Geometry, page: nat): Path
    requires g.pageSize > 0
  {
    PagePath(g.pageSize, g.depth, page)
  }

  /** No page is both resident and in the swap file. */
  ghost predicate SwapDisjoint(g: Geometry, tree: Tree, swap: map<nat, seq<int>>)
    requires g.pageSize > 0
  {
    forall page :: page in swap ==>
      page < g.pages && |swap[page]| == g.pageSize && PathOf(g, page) !in tree
  }

  ghost predicate Consistent(g: Geometry, mem: Memory, tree: Tree, swap: map<nat, seq<int>>)
    requires g.pageSize > 0
  {
    IsView(g, mem, tree) && LeavesArePages(g, tree) && SwapDisjoint(g, tree, swap)
  }

  ghost predicate Touched(g: Geometry, tree: Tree, swap: map<nat, seq<int>>, page: nat)
    requires g.pageSize > 0
  {
    page < g.pages && (PathOf(g, page) in tree || page in swap)
  }

  ghost function Words(g: Geometry, mem: Memory, tree: Tree, swap: map<nat, seq<int>>, page: nat): seq<int>
    requires g.pageSize > 0 && Shaped(g, mem) && WellFormed(g, tree) && Touched(g, tree, swap, page)
  {
    if PathOf(g, page) in tree then mem[tree[PathOf(g, page)]] else swap[page]
  }

  /** The words of every page ever touched, wherever they are now. */
  ghost function Contents(g: Geometry, mem: Memory, tree: Tree, swap: map<nat, seq<int>>): map<nat, seq<int>>
    requires g.pageSize > 0 && Shaped(g, mem) && WellFormed(g, tree)
  {
    map page: nat | page < g.pages && Touched(g, tree, swap, page) :: Words(g, mem, tree, swap, page)
  }

  /** A table none of whose cells is in use. */
  ghost predicate EmptyTable(g: Geometry, tree: Tree, p: Path) {
    p in tree && |p| < g.depth && forall j: nat :: j < g.pageSize ==> Child(p, j) !in tree
  }

  ghost predicate Leaf(g: Geometry, tree: Tree, p: Path) {
    p in tree && |p| == g.depth
  }

  /** At most one empty table apart from the one at `at`. */
  ghost predicate OneSpareTable(g: Geometry, tree: Tree, at: Path) {
    forall a, b :: EmptyTable(g, tree, a) && EmptyTable(g, tree, b) && a != at && b != at ==> a == b
  }

  // ---------------------------------------------------------------- structure

  lemma ParentOfChild(p: Path, j: nat)
    ensures Child(p, j) != [] && Parent(Child(p, j)) == p && Last(Child(p, j)) == j
  {
  }

  lemma ChildOfParent(p: Path)
    requires p != []
    ensures Child(Parent(p), Last(p)) == p
  {
  }

  lemma {:induction false} PrefixClosed(g: Geometry, tree: Tree, p: Path, k: nat)
    requires WellFormed(g, tree) && p in tree && k <= |p|
    ensures p[..k] in tree
  {
    if k == |p| {
      assert p[..k] == p;
    } else {
      ChildOfParent(p);
      PrefixClosed(g, tree, Parent(p), k);
      assert Parent(p)[..k] == p[..k];
    }
  }

  lemma {:induction false} PathsAreDigits(g: Geometry, tree: Tree, p: Path)
    requires WellFormed(g, tree) && p in tree
    ensures Digits(g.pageSize, p)
  {
    if p != [] {
      ChildOfParent(p);
      PathsAreDigits(g, tree, Parent(p));
    }
  }

  /** A linked frame below `at` is reached through a cell of `at`. */
  lemma StepDown(g: Geometry, tree: Tree, at: Path, q: Path)
    requires WellFormed(g, tree) && q in tree && at < q
    ensures q[|at|] < g.pageSize && Child(at, q[|at|]) <= q && Child(at, q[|at|]) in tree
  {
    PathsAreDigits(g, tree, q);
    PrefixClosed(g, tree, q, |at| + 1);
    assert q[..|at| + 1] == Child(at, q[|at|]);
  }

  /** A leaf is a page, and its path is that page's path. */
  lemma LeafIsPage(g: Geometry, tree: Tree, p: Path)
    requires g.pageSize > 0 && WellFormed(g, tree) && Leaf(g, tree, p)
    ensures PathOf(g, PathNumber(g.pageSize, p)) == p
  {
    PathsAreDigits(g, tree, p);
    PagePathOfPathNumber(g.pageSize, p);
  }

  /** The RAM words determine the tree: following the cells of `mem` along
      `p` from frame 0 reaches the same frame in every view of `mem`. */
  lemma {:induction false} SameWalk(g: Geometry, mem: Memory, a: Tree, b: Tree, p: Path)
    requires IsView(g, mem, a) && IsView(g, mem, b) && p in a
    ensures p in b && b[p] == a[p]
  {
    if p != [] {
      var q, j := Parent(p), Last(p);
      ChildOfParent(p);
      SameWalk(g, mem, a, b, q);
      assert mem[a[q]][j] == LinkTo(a, Child(q, j)) == LinkTo(b, Child(q, j));
      assert a[p] != a[[]];
    }
  }

  lemma ViewIsUnique(g: Geometry, mem: Memory, a: Tree, b: Tree)
    requires IsView(g, mem, a) && IsView(g, mem, b)
    ensures a == b
  {
    forall p ensures p in a <==> p in b {
      if p in a {
        SameWalk(g, mem, a, b, p);
      } else if p in b {
        SameWalk(g, mem, b, a, p);
      }
    }
    assert a.Keys == b.Keys;
    forall p | p in a ensures a[p] == b[p] {
      SameWalk(g, mem, a, b, p);
    }
  }

  // ------------------------------------------------------------ changing a link

  /** Zeroing the parent cell of a frame without children unlinks that frame. */
  lemma Unlink(g: Geometry, mem: Memory, tree: Tree, q: Path)
    requires IsView(g, mem, tree) && q in tree && q != []
    requires Leaf(g, tree, q) || EmptyTable(g, tree, q)
    ensures Parent(q) in tree && Last(q) < g.pageSize && |Parent(q)| < g.depth
    ensures IsView(g, Poke(mem, tree[Parent(q)], Last(q), 0), tree - {q})
  {
    ChildOfParent(q);
    var mem', tree' := Poke(mem, tree[Parent(q)], Last(q), 0), tree - {q};
    forall p, k: nat | Child(p, k) in tree' ensures p in tree' && k < g.pageSize {
      ParentOfChild(p, k);
    }
    forall p, j: nat | p in tree' && |p| < g.depth && j < g.pageSize
      ensures mem'[tree'[p]][j] == LinkTo(tree', Child(p, j))
    {
      ParentOfChild(p, j);
      ChildOfParent(q);
      assert mem[tree[p]][j] == LinkTo(tree, Child(p, j));
    }
  }

  /** Storing an unlinked frame's number in an empty cell links it there. */
  lemma Link(g: Geometry, mem: Memory, tree: Tree, p: Path, j: nat, f: nat)
    requires IsView(g, mem, tree) && p in tree && |p| < g.depth && j < g.pageSize
    requires Child(p, j) !in tree && 0 < f < g.frames && f !in tree.Values
    requires |p| + 1 < g.depth ==> mem[f] == seq(g.pageSize, _ => 0)
    ensures IsView(g, Poke(mem, tree[p], j, f), tree[Child(p, j) := f])
  {
    var c := Child(p, j);
    var mem', tree' := Poke(mem, tree[p], j, f), tree[c := f];
    ParentOfChild(p, j);
    forall q | q in tree ensures tree[q] != f && tree'[q] == tree[q] {
    }
    forall q, k: nat | q in tree' && |q| < g.depth && k < g.pageSize
      ensures mem'[tree'[q]][k] == LinkTo(tree', Child(q, k))
    {
      ParentOfChild(q, k);
      if q == c {
        assert Child(c, k) !in tree;
      } else {
        assert mem[tree[q]][k] == LinkTo(tree, Child(q, k));
      }
    }
  }

  /** Words of an unlinked frame do not matter to the tree. */
  lemma Overwrite(g: Geometry, mem: Memory, tree: Tree, f: nat, words: seq<int>)
    requires IsView(g, mem, tree) && f < g.frames && |words| == g.pageSize
    requires forall p :: p in tree && |p| < g.depth ==> tree[p] != f
    ensures IsView(g, mem[f := words], tree)
  {
    var mem' := mem[f := words];
    forall p, j: nat | p in tree && |p| < g.depth && j < g.pageSize
      ensures mem'[tree[p]][j] == LinkTo(tree, Child(p, j))
    {
      assert mem[tree[p]][j] == LinkTo(tree, Child(p, j));
    }
  }

  // -------------------------------------------------------------- page contents

  lemma SamePage(g: Geometry, page: nat, q: Path)
    requires Admissible(g) && page < g.pages && PathOf(g, page) == q
    ensures PathNumber(g.pageSize, q) == page
  {
    PathNumberOfPagePath(g.pageSize, g.depth, page);
  }

  /** Poking a cell of a table leaves every leaf frame alone. */
  lemma PokeMissesLeaf(g: Geometry, mem: Memory, tree: Tree, p: Path, j: nat, v: int, q: Path)
    requires Shaped(g, mem) && WellFormed(g, tree) && p in tree && |p| < g.depth && j < g.pageSize
    requires Leaf(g, tree, q)
    ensures Poke(mem, tree[p], j, v)[tree[q]] == mem[tree[q]]
  {
    assert p != q;
  }

  lemma SameContents(g: Geometry, mem: Memory, tree: Tree, swap: map<nat, seq<int>>,
                     mem': Memory, tree': Tree, swap': map<nat, seq<int>>)
    requires g.pageSize > 0 && Shaped(g, mem) && WellFormed(g, tree) && Shaped(g, mem') && WellFormed(g, tree')
    requires forall page: nat :: Touched(g, tree, swap, page) <==> Touched(g, tree', swap', page)
    requires forall page: nat :: Touched(g, tree, swap, page) ==>
               Words(g, mem, tree, swap, page) == Words(g, mem', tree', swap', page)
    ensures Contents(g, mem', tree', swap') == Contents(g, mem, tree, swap)
  {
  }

  /** Reclaiming an empty table loses no page. */
  lemma ReclaimKeepsPages(g: Geometry, mem: Memory, tree: Tree, swap: map<nat, seq<int>>, q: Path)
    requires Admissible(g) && Consistent(g, mem, tree, swap) && q != [] && EmptyTable(g, tree, q)
    ensures Parent(q) in tree && Last(q) < g.pageSize
    ensures var mem', tree' := Poke(mem, tree[Parent(q)], Last(q), 0), tree - {q};
            && Consistent(g, mem', tree', swap)
            && Contents(g, mem', tree', swap) == Contents(g, mem, tree, swap)
  {
    Unlink(g, mem, tree, q);
    var mem', tree' := Poke(mem, tree[Parent(q)], Last(q), 0), tree - {q};
    forall page: nat | Touched(g, tree, swap, page)
      ensures Touched(g, tree', swap, page)
      ensures Words(g, mem', tree', swap, page) == Words(g, mem, tree, swap, page)
    {
      if PathOf(g, page) in tree {
        PokeMissesLeaf(g, mem, tree, Parent(q), Last(q), 0, PathOf(g, page));
      }
    }
    SameContents(g, mem, tree, swap, mem', tree', swap);
  }

  /** Only the page at leaf `q` changes sides when `q` is evicted. */
  lemma EvictOne(g: Geometry, tree: Tree, q: Path, other: nat)
    requires Admissible(g) && WellFormed(g, tree) && Leaf(g, tree, q)
    requires other < g.pages && other != PathNumber(g.pageSize, q)
    ensures PathOf(g, other) != q
  {
    if PathOf(g, other) == q {
      SamePage(g, other, q);
    }
  }

  lemma EvictKeepsSwap(g: Geometry, mem: Memory, tree: Tree, swap: map<nat, seq<int>>, q: Path)
    requires Admissible(g) && Consistent(g, mem, tree, swap) && Leaf(g, tree, q)
    ensures var page := PathNumber(g.pageSize, q);
            && page !in swap && page < g.pages
            && SwapDisjoint(g, tree - {q}, swap[page := mem[tree[q]]])
  {
    LeafIsPage(g, tree, q);
  }

  /** Evicting a leaf moves its page to the swap file word for word. */
  lemma EvictKeepsPages(g: Geometry, mem: Memory, tree: Tree, swap: map<nat, seq<int>>, q: Path)
    requires Admissible(g) && Consistent(g, mem, tree, swap) && Leaf(g, tree, q)
    ensures q != [] && Parent(q) in tree && Last(q) < g.pageSize
    ensures var page := PathNumber(g.pageSize, q);
            var mem', tree' := Poke(mem, tree[Parent(q)], Last(q), 0), tree - {q};
            var swap' := swap[page := mem[tree[q]]];
            && page !in swap && page < g.pages
            && Consistent(g, mem', tree', swap')
            && Contents(g, mem', tree', swap') == Contents(g, mem, tree, swap)
  {
    Unlink(g, mem, tree, q);
    LeafIsPage(g, tree, q);
    EvictKeepsSwap(g, mem, tree, swap, q);
    var page := PathNumber(g.pageSize, q);
    var mem', tree' := Poke(mem, tree[Parent(q)], Last(q), 0), tree - {q};
    var swap' := swap[page := mem[tree[q]]];
    forall other: nat
      ensures Touched(g, tree, swap, other) <==> Touched(g, tree', swap', other)
      ensures Touched(g, tree, swap, other) ==>
                Words(g, mem', tree', swap', other) == Words(g, mem, tree, swap, other)
    {
      if other < g.pages && other != page {
        EvictOne(g, tree, q, other);
      }
      if other < g.pages && PathOf(g, other) in tree {
        PokeMissesLeaf(g, mem, tree, Parent(q), Last(q), 0, PathOf(g, other));
      }
    }
    SameContents(g, mem, tree, swap, mem', tree', swap');
  }

  /** Clearing a spare frame and linking it as a table moves no page. */
  lemma LinkTableKeepsPages(g: Geometry, mem: Memory, tree: Tree, swap: map<nat, seq<int>>,
                            p: Path, j: nat, f: nat)
    requires Admissible(g) && Consistent(g, mem, tree, swap)
    requires p in tree && |p| + 1 < g.depth && j < g.pageSize && Child(p, j) !in tree
    requires 0 < f < g.frames && f !in tree.Values
    ensures var mem1 := mem[f := seq(g.pageSize, _ => 0)];
            var mem', tree' := Poke(mem1, tree[p], j, f), tree[Child(p, j) := f];
            && Consistent(g, mem', tree', swap)
            && Contents(g, mem', tree', swap) == Contents(g, mem, tree, swap)
  {
    var mem1 := mem[f := seq(g.pageSize, _ => 0)];
    Overwrite(g, mem, tree, f, seq(g.pageSize, _ => 0));
    Link(g, mem1, tree, p, j, f);
    var mem', tree' := Poke(mem1, tree[p], j, f), tree[Child(p, j) := f];
    forall page: nat
      ensures Touched(g, tree, swap, page) <==> Touched(g, tree', swap, page)
      ensures Touched(g, tree, swap, page) ==>
                Words(g, mem', tree', swap, page) == Words(g, mem, tree, swap, page)
    {
      if page < g.pages && PathOf(g, page) in tree {
        PokeMissesLeaf(g, mem1, tree, p, j, f, PathOf(g, page));
      }
    }
    SameContents(g, mem, tree, swap, mem', tree', swap);
  }

  /** The frame's words after a restore: the swapped page if there is one,
      otherwise whatever the frame held. */
  function Restored(mem: Memory, swap: map<nat, seq<int>>, f: nat, page: nat): seq<int>
    requires f < |mem|
  {
    if page in swap then swap[page] else mem[f]
  }

  /** Restoring a page into a spare frame and linking it as a leaf changes at
      most that page, and only on its first touch. */
  lemma LinkPageKeepsOthers(g: Geometry, mem: Memory, tree: Tree, swap: map<nat, seq<int>>,
                            p: Path, j: nat, f: nat, page: nat)
    requires Admissible(g) && Consistent(g, mem, tree, swap)
    requires p in tree && page < g.pages && PathOf(g, page) == Child(p, j) && Child(p, j) !in tree
    requires 0 < f < g.frames && f !in tree.Values
    ensures |p| + 1 == g.depth && j < g.pageSize
    ensures var words := Restored(mem, swap, f, page);
            var mem', tree' := Poke(mem[f := words], tree[p], j, f), tree[Child(p, j) := f];
            var swap' := swap - {page};
            && Consistent(g, mem', tree', swap')
            && Contents(g, mem', tree', swap') == Contents(g, mem, tree, swap)[page := words]
  {
    var c := Child(p, j);
    assert c[|p|] == j && Digits(g.pageSize, c);
    var words := Restored(mem, swap, f, page);
    var mem1, swap' := mem[f := words], swap - {page};
    Overwrite(g, mem, tree, f, words);
    Link(g, mem1, tree, p, j, f);
    var mem', tree' := Poke(mem1, tree[p], j, f), tree[c := f];
    SamePage(g, page, c);
    LinkedSwap(g, tree, swap, c, f, page);
    forall other: nat
      ensures Touched(g, tree', swap', other) <==> Touched(g, tree, swap, other) || other == page
      ensures Touched(g, tree', swap', other) ==>
                Words(g, mem', tree', swap', other)
                == if other == page then words else Words(g, mem, tree, swap, other)
    {
      LinkPageOne(g, mem, tree, swap, p, j, f, page, mem', tree', other);
    }
    Grown(g, mem, tree, swap, mem', tree', swap', page, words);
  }

  lemma LinkPageOne(g: Geometry, mem: Memory, tree: Tree, swap: map<nat, seq<int>>,
                    p: Path, j: nat, f: nat, page: nat, mem': Memory, tree': Tree, other: nat)
    requires Admissible(g) && Shaped(g, mem) && WellFormed(g, tree)
    requires p in tree && |p| < g.depth && page < g.pages && PathOf(g, page) == Child(p, j) && Child(p, j) !in tree
    requires j < g.pageSize && f < g.frames && f !in tree.Values
    requires Shaped(g, mem') && WellFormed(g, tree') && tree' == tree[Child(p, j) := f]
    requires |Restored(mem, swap, f, page)| == g.pageSize
    requires mem' == Poke(mem[f := Restored(mem, swap, f, page)], tree[p], j, f)
    ensures Touched(g, tree', swap - {page}, other) <==> Touched(g, tree, swap, other) || other == page
    ensures Touched(g, tree', swap - {page}, other) ==>
              Words(g, mem', tree', swap - {page}, other)
              == if other == page then Restored(mem, swap, f, page) else Words(g, mem, tree, swap, other)
  {
    if other < g.pages && other != page && PathOf(g, other) == Child(p, j) {
      SamePage(g, other, Child(p, j));
      SamePage(g, page, Child(p, j));
    }
  }

  lemma Grown(g: Geometry, mem: Memory, tree: Tree, swap: map<nat, seq<int>>,
              mem': Memory, tree': Tree, swap': map<nat, seq<int>>, page: nat, words: seq<int>)
    requires g.pageSize > 0 && Shaped(g, mem) && WellFormed(g, tree) && Shaped(g, mem') && WellFormed(g, tree')
    requires forall other: nat :: Touched(g, tree', swap', other) <==> Touched(g, tree, swap, other) || other == page
    requires forall other: nat :: Touched(g, tree', swap', other) ==>
               Words(g, mem', tree', swap', other)
               == if other == page then words else Words(g, mem, tree, swap, other)
    ensures Contents(g, mem', tree', swap') == Contents(g, mem, tree, swap)[page := words]
  {
    var before, after := Contents(g, mem, tree, swap), Contents(g, mem', tree', swap');
    forall other: nat
      ensures other in after <==> other in before || other == page
      ensures other in after ==> after[other] == if other == page then words else before[other]
    {
      ContentsAt(g, mem, tree, swap, other);
      ContentsAt(g, mem', tree', swap', other);
    }
    Updated(before, after, page, words);
  }

  lemma LinkedSwap(g: Geometry, tree: Tree, swap: map<nat, seq<int>>, c: Path, f: nat, page: nat)
    requires Admissible(g) && SwapDisjoint(g, tree, swap)
    requires PathNumber(g.pageSize, c) == page
    ensures SwapDisjoint(g, tree[c := f], swap - {page})
  {
    forall other | other in swap - {page} ensures PathOf(g, other) != c {
      if PathOf(g, other) == c {
        SamePage(g, other, c);
      }
    }
  }

  lemma ContentsAt(g: Geometry, mem: Memory, tree: Tree, swap: map<nat, seq<int>>, page: nat)
    requires g.pageSize > 0 && Shaped(g, mem) && WellFormed(g, tree)
    ensures page in Contents(g, mem, tree, swap) <==> Touched(g, tree, swap, page)
    ensures Touched(g, tree, swap, page) ==>
              Contents(g, mem, tree, swap)[page] == Words(g, mem, tree, swap, page)
  {
  }

  lemma Updated(before: map<nat, seq<int>>, after: map<nat, seq<int>>, page: nat, words: seq<int>)
    requires forall other: nat :: other in after <==> other in before || other == page
    requires forall other: nat :: other in after ==>
               after[other] == if other == page then words else before[other]
    ensures after == before[page := words]
  {
  }

  /** Writing a word of a resident page changes that word and nothing else. */
  lemma WriteWord(g: Geometry, mem: Memory, tree: Tree, swap: map<nat, seq<int>>, page: nat, j: nat, v: int)
    requires Admissible(g) && Consistent(g, mem, tree, swap)
    requires page < g.pages && PathOf(g, page) in tree && j < g.pageSize
    ensures var mem' := Poke(mem, tree[PathOf(g, page)], j, v);
            var before := Contents(g, mem, tree, swap);
            && page in before
            && Consistent(g, mem', tree, swap)
            && Contents(g, mem', tree, swap) == before[page := before[page][j := v]]
  {
    var q := PathOf(g, page);
    var mem' := Poke(mem, tree[q], j, v);
    Overwrite(g, mem, tree, tree[q], mem[tree[q]][j := v]);
    SamePage(g, page, q);
    var before, after := Contents(g, mem, tree, swap), Contents(g, mem', tree, swap);
    ContentsAt(g, mem, tree, swap, page);
    forall other: nat
      ensures other in after <==> other in before || other == page
      ensures other in after ==> after[other] == if other == page then before[page][j := v] else before[other]
    {
      ContentsAt(g, mem, tree, swap, other);
      ContentsAt(g, mem', tree, swap, other);
      if other < g.pages && PathOf(g, other) == q {
        SamePage(g, other, q);
      }
    }
    Updated(before, after, page, before[page][j := v]);
  }

  // ------------------------------------------------------------------- counting

  function Prefixes(p: Path): set<Path> {
    {p} + if p == [] then {} else Prefixes(Parent(p))
  }

  lemma {:induction false} PrefixesCount(p: Path)
    ensures |Prefixes(p)| <= |p| + 1
    ensures forall q :: q <= p ==> q in Prefixes(p)
  {
    if p != [] {
      PrefixesCount(Parent(p));
      forall q | q <= p ensures q in Prefixes(p) {
        if |q| < |p| {
          assert q <= Parent(p);
        } else {
          assert q == p;
        }
      }
    }
  }

  /** From a table that is not on the way to `at`, cells in use lead to a page. */
  lemma {:induction false} DescendToLeaf(g: Geometry, tree: Tree, q: Path, at: Path) returns (leaf: Path)
    requires WellFormed(g, tree) && q in tree && !(q <= at)
    requires forall e :: EmptyTable(g, tree, e) ==> e == at
    ensures Leaf(g, tree, leaf)
    decreases g.depth - |q|
  {
    if |q| == g.depth {
      leaf := q;
    } else {
      assert !EmptyTable(g, tree, q);
      var j: nat :| j < g.pageSize && Child(q, j) in tree;
      assert q <= Child(q, j);
      leaf := DescendToLeaf(g, tree, Child(q, j), at);
    }
  }

  /** With more frames than levels and every frame linked, some frame is a page. */
  lemma LeafExists(g: Geometry, tree: Tree, at: Path) returns (leaf: Path)
    requires Admissible(g) && WellFormed(g, tree) && |tree| == g.frames
    requires |at| < g.depth
    requires forall e :: EmptyTable(g, tree, e) ==> e == at
    ensures Leaf(g, tree, leaf)
  {
    PrefixesCount(at);
    assert |tree.Keys| == |tree|;
    if tree.Keys <= Prefixes(at) {
      SubsetSize(tree.Keys, Prefixes(at));
      assert false;
    }
    var q :| q in tree.Keys && q !in Prefixes(at);
    leaf := DescendToLeaf(g, tree, q, at);
  }

  lemma {:induction false} SubsetSize<T>(a: set<T>, b: set<T>)
    requires a <= b
    ensures |a| <= |b|
    ensures |a| == |b| ==> a == b
  {
    if a != {} {
      var x :| x in a;
      SubsetSize(a - {x}, b - {x});
      assert b == (b - {x}) + {x} && a == (a - {x}) + {x};
    }
  }

  lemma {:induction false} ValuesCount(tree: Tree)
    requires forall p, q :: p in tree && q in tree && tree[p] == tree[q] ==> p == q
    ensures |tree.Values| == |tree|
  {
    if tree.Keys != {} {
      var p :| p in tree.Keys;
      var rest := tree - {p};
      ValuesCount(rest);
      assert tree.Keys == rest.Keys + {p};
      assert tree.Values == rest.Values + {tree[p]} by {
        forall v | v in tree.Values ensures v in rest.Values + {tree[p]} {
          var q :| q in tree && tree[q] == v;
          assert q == p || q in rest;
        }
        forall v | v in rest.Values ensures v in tree.Values {
          var q :| q in rest && rest[q] == v;
          assert q in tree;
        }
      }
      assert tree[p] !in rest.Values;
    } else {
      assert tree == map[];
    }
  }

  /** The numbers below `n`. */
  function Below(n: nat): set<nat> {
    if n == 0 then {} else Below(n - 1) + {n - 1}
  }

  lemma {:induction false} BelowSize(n: nat)
    ensures |Below(n)| == n
    ensures forall f: nat :: f in Below(n) <==> f < n
  {
    if n > 0 {
      BelowSize(n - 1);
    }
  }

  /** The linked frames are exactly 0, 1, ... with no gap. */
  lemma LinkedFramesAreContiguous(g: Geometry, tree: Tree)
    requires WellFormed(g, tree) && Contiguous(tree)
    ensures tree.Values == Below(|tree|)
    ensures |tree| <= g.frames
  {
    ValuesCount(tree);
    BelowSize(|tree|);
    BelowSize(g.frames);
    SubsetSize(tree.Values, Below(|tree|));
    SubsetSize(tree.Values, Below(g.frames));
  }

  /** The largest linked frame number counts the linked frames. */
  lemma LargestFrame(g: Geometry, tree: Tree, m: nat)
    requires WellFormed(g, tree) && Contiguous(tree)
    requires m in tree.Values && forall p :: p in tree ==> tree[p] <= m
    ensures m + 1 == |tree|
  {
    LinkedFramesAreContiguous(g, tree);
    assert |tree| - 1 in Below(|tree|);
    var p :| p in tree && tree[p] == |tree| - 1;
  }

  // -------------------------------------------------------------- spare tables

  /** After `q`'s frame moves to the empty cell `j` of `p`, only `q`'s old
      parent and the new frame can be empty tables. */
  lemma SpareAfterMove(g: Geometry, tree: Tree, p: Path, j: nat, q: Path, f: nat, tree': Tree)
    requires WellFormed(g, tree) && p in tree && j < g.pageSize && Child(p, j) !in tree
    requires q in tree && q != []
    requires forall e :: EmptyTable(g, tree, e) ==> e == p || e == q
    requires tree' == (tree - {q})[Child(p, j) := f]
    ensures forall x :: EmptyTable(g, tree', x) && x != Child(p, j) ==> x == Parent(q)
  {
    assert Child(p, j) in tree';
    forall x | EmptyTable(g, tree', x) && x != Child(p, j) ensures x == Parent(q) {
      assert x != p;
      assert !EmptyTable(g, tree, x);
      var k: nat :| k < g.pageSize && Child(x, k) in tree;
      assert Child(x, k) !in tree';
      ParentOfChild(x, k);
    }
  }

  lemma SpareAfterFresh(g: Geometry, tree: Tree, p: Path, j: nat, f: nat, tree': Tree)
    requires WellFormed(g, tree) && p in tree && j < g.pageSize && Child(p, j) !in tree
    requires forall e :: EmptyTable(g, tree, e) ==> e == p
    requires tree' == tree[Child(p, j) := f]
    ensures forall x :: EmptyTable(g, tree', x) ==> x == Child(p, j)
  {
    assert Child(p, j) in tree';
    forall x: Path | x != Child(p, j) ensures !EmptyTable(g, tree', x) {
      if x != p && x in tree && |x| < g.depth {
        assert !EmptyTable(g, tree, x);
        var k: nat :| k < g.pageSize && Child(x, k) in tree;
        assert Child(x, k) in tree';
      }
    }
  }
}

/** The memory a caller sees: a flat array of words, known page by page. */
module FlatMemory {
  import opened PageNumbers
  import opened PhysicalMemory
  import opened PageTree

  /** The words of every page touched so far. */
  type Flat = map<nat, seq<int>>

  function VirtualMemorySize(g: Geometry): nat {
    g.pages * g.pageSize
  }

  /** The page an address belongs to. */
  function PageOf(g: Geometry, virtualAddress: nat): nat
    requires g.pageSize > 0
  {
    virtualAddress / g.pageSize
  }

  /** The word of that page it names. */
  function OffsetOf(g: Geometry, virtualAddress: nat): (offset: nat)
    requires g.pageSize > 0
    ensures offset < g.pageSize
  {
    virtualAddress % g.pageSize
  }

  ghost predicate InRange(g: Geometry, virtualAddress: nat)
    requires g.pageSize > 0
  {
    PageOf(g, virtualAddress) < g.pages
  }

  /** The bound the code tests says exactly that the page exists. */
  lemma RangeTest(g: Geometry, virtualAddress: nat)
    requires g.pageSize > 0
    ensures virtualAddress < VirtualMemorySize(g) <==> InRange(g, virtualAddress)
  {
    var page := PageOf(g, virtualAddress);
    assert virtualAddress == page * g.pageSize + virtualAddress % g.pageSize;
    if page < g.pages {
      CarryLess(page, g.pages, g.pageSize, OffsetOf(g, virtualAddress));
    } else {
      MulMonotone(g.pages, page, g.pageSize);
    }
  }

  /** After an access to `page`: it is now known, every other page kept its
      words, and so did `page` if it had been touched before. */
  ghost predicate OnlyTouches(g: Geometry, before: Flat, after: Flat, page: nat) {
    && page in after && |after[page]| == g.pageSize
    && after == before[page := after[page]]
    && (page in before ==> after[page] == before[page])
  }

  /** A write: as a touch, with one word replaced. */
  ghost predicate Writes(g: Geometry, before: Flat, virtualAddress: nat, value: int, after: Flat)
    requires g.pageSize > 0
  {
    var page, offset := PageOf(g, virtualAddress), OffsetOf(g, virtualAddress);
    exists touched :: OnlyTouches(g, before, touched, page)
      && after == touched[page := touched[page][offset := value]]
  }

  ghost predicate Reads(g: Geometry, before: Flat, virtualAddress: nat, value: int, after: Flat)
    requires g.pageSize > 0
  {
    && OnlyTouches(g, before, after, PageOf(g, virtualAddress))
    && value == after[PageOf(g, virtualAddress)][OffsetOf(g, virtualAddress)]
  }

  /** One call and, for a read, the word it returned. */
  datatype Access = Write(address: nat, value: int) | Read(address: nat, result: int)

  /** What one call may do to the pages, as `VMwrite` and `VMread` ensure. */
  ghost predicate Performs(g: Geometry, before: Flat, op: Access, after: Flat)
    requires g.pageSize > 0
  {
    if !InRange(g, op.address) then after == before
    else match op
      case Write(address, value) => Writes(g, before, address, value, after)
      case Read(address, result) => Reads(g, before, address, result, after)
  }

  // --------------------------------------------- the path to a virtual address

  function PathTo(g: Geometry, virtualAddress: nat): Path
    requires g.pageSize > 0
  {
    PathOf(g, PageOf(g, virtualAddress))
  }

  lemma PathFacts(g: Geometry, virtualAddress: nat)
    requires g.pageSize > 0
    ensures |PathTo(g, virtualAddress)| == g.depth && WordAddress(g, 0, 0) == 0
    ensures PathTo(g, virtualAddress) == PathOf(g, PageOf(g, virtualAddress))
  {
  }

  /** One level of the walk. */
  lemma StepFacts(g: Geometry, tree: Tree, virtualAddress: nat, i: nat)
    requires g.pageSize > 0 && WellFormed(g, tree) && InRange(g, virtualAddress) && i < g.depth
    ensures var path := PathTo(g, virtualAddress);
            && |path| == g.depth && 0 <= path[i] < g.pageSize && |path[..i]| == i
            && path == PathOf(g, PageOf(g, virtualAddress)) && PageOf(g, virtualAddress) < g.pages
            && path[..i + 1] == Child(path[..i], path[i])
            && path[i] == TableIndex(g.pageSize, g.depth, virtualAddress, i)
            && (i + 1 == g.depth ==> path[..i + 1] == path)
            && (path[..i + 1] !in tree ==> path !in tree)
  {
    var path := PathTo(g, virtualAddress);
    assert Digits(g.pageSize, path);
    IndicesAreDigits(g.pageSize, g.depth, virtualAddress, i);
    if path in tree {
      PrefixClosed(g, tree, path, i + 1);
    }
  }

  lemma NextWord(g: Geometry, frame: nat, j: nat)
    ensures WordAddress(g, frame, 0) + j == WordAddress(g, frame, j)
  {
  }

  lemma SwapWords(g: Geometry, mem: Memory, tree: Tree, swap: Flat, page: nat)
    requires g.pageSize > 0 && Consistent(g, mem, tree, swap)
    ensures page in swap ==> |swap[page]| == g.pageSize
  {
  }

  lemma RestoredIs(mem: Memory, swap: Flat, f: nat, page: nat)
    requires f < |mem|
    ensures mem[f := Restored(mem, swap, f, page)] == if page in swap then mem[f := swap[page]] else mem
  {
  }

  /** Restoring a page is a touch of that page. */
  lemma TouchesOne(g: Geometry, mem: Memory, tree: Tree, swap: Flat, f: nat, page: nat, after: Flat)
    requires g.pageSize > 0 && Consistent(g, mem, tree, swap) && f < g.frames
    requires page < g.pages && PathOf(g, page) !in tree
    requires after == Contents(g, mem, tree, swap)[page := Restored(mem, swap, f, page)]
    ensures OnlyTouches(g, Contents(g, mem, tree, swap), after, page)
  {
    ContentsAt(g, mem, tree, swap, page);
  }

  /** A page already resident is not changed by reaching it. */
  lemma AlreadyThere(g: Geometry, mem: Memory, tree: Tree, swap: Flat, virtualAddress: nat)
    requires g.pageSize > 0 && Consistent(g, mem, tree, swap)
    requires InRange(g, virtualAddress) && PathTo(g, virtualAddress) in tree
    ensures var flat := Contents(g, mem, tree, swap);
            OnlyTouches(g, flat, flat, PageOf(g, virtualAddress))
  {
    var page := PageOf(g, virtualAddress);
    ContentsAt(g, mem, tree, swap, page);
    assert Touched(g, tree, swap, page);
  }

  lemma StillOneSpare(g: Geometry, tree: Tree, at: Path, idx: nat)
    requires OneSpareTable(g, tree, at) && Child(at, idx) in tree && idx < g.pageSize
    ensures OneSpareTable(g, tree, Child(at, idx))
  {
    assert !EmptyTable(g, tree, at);
  }

  lemma BackToRoot(g: Geometry, tree: Tree, leaf: Path)
    requires OneSpareTable(g, tree, leaf) && |leaf| == g.depth
    ensures OneSpareTable(g, tree, [])
  {
    assert !EmptyTable(g, tree, leaf);
  }

  /** The word at the translated address is the word of the page. */
  lemma ResidentWord(g: Geometry, mem: Memory, tree: Tree, swap: Flat, virtualAddress: nat)
    requires g.pageSize > 0 && Consistent(g, mem, tree, swap)
    requires InRange(g, virtualAddress) && PathTo(g, virtualAddress) in tree
    ensures var page, f := PageOf(g, virtualAddress), tree[PathTo(g, virtualAddress)];
            && f < g.frames && |mem| == g.frames
            && page in Contents(g, mem, tree, swap) && Contents(g, mem, tree, swap)[page] == mem[f]
            && |mem[f]| == g.pageSize
            && page < g.pages && PathOf(g, page) == PathTo(g, virtualAddress)
  {
    var page := PageOf(g, virtualAddress);
    ContentsAt(g, mem, tree, swap, page);
    assert Touched(g, tree, swap, page);
  }

  lemma WriteOf(g: Geometry, before: Flat, touched: Flat, virtualAddress: nat, value: int, after: Flat)
    requires g.pageSize > 0 && InRange(g, virtualAddress)
    requires OnlyTouches(g, before, touched, PageOf(g, virtualAddress))
    requires after == touched[PageOf(g, virtualAddress) :=
                              touched[PageOf(g, virtualAddress)][OffsetOf(g, virtualAddress) := value]]
    ensures Performs(g, before, Write(virtualAddress, value), after)
  {
  }

  lemma ReadOf(g: Geometry, before: Flat, after: Flat, virtualAddress: nat, value: int)
    requires g.pageSize > 0 && InRange(g, virtualAddress)
    requires OnlyTouches(g, before, after, PageOf(g, virtualAddress))
    requires value == after[PageOf(g, virtualAddress)][OffsetOf(g, virtualAddress)]
    ensures Performs(g, before, Read(virtualAddress, value), after)
  {
  }

  lemma Rejected(g: Geometry, flat: Flat, op: Access)
    requires g.pageSize > 0 && !InRange(g, op.address)
    ensures Performs(g, flat, op, flat)
  {
  }
}

/** Address translation over the page tables stored in RAM: the frame search,
    the choice of a frame, and the words seen by the caller. */
module VirtualMemory {
  import opened PageNumbers
  import opened PhysicalMemory
  import opened PageTree
  import opened FrameSearch
  import opened FrameChoice
  import opened FlatMemory
  import opened Faults

  /** What the record of a translation says of one access. */
  lemma Recorded(g: Geometry, virtualAddress: nat, before: Moment, now: Moment)
    requires g.pageSize > 0 && WellFormed(g, before.tree)
    requires Walked(g, PageOf(g, virtualAddress), g.depth, before, now)
    ensures Translated(g, PageOf(g, virtualAddress), before, now.tree, now.swap)
    ensures PathTo(g, virtualAddress) in before.tree ==> now == before
  {
    hide Walked, Translated, WellFormed;
    TranslationIs(g, PageOf(g, virtualAddress), before, now);
    if PathTo(g, virtualAddress) in before.tree {
      ResidentStays(g, PageOf(g, virtualAddress), g.depth, before, now);
    }
  }

  class PagedMemory {
    const g: Geometry
    const pm: Ram
    /** The structure the RAM words encode; nothing the code stores. */
    ghost var tree: Tree

    /** What holds while a walk stands at table `at`. */
    ghost predicate Walking(at: Path)
      reads this, pm, pm.ram
      ensures Walking(at) ==> pm.Valid() && pm.g == g && g.pageSize > 0 && WellFormed(g, tree) && at in tree
    {
      && pm.Valid() && pm.g == g && Admissible(g)
      && Consistent(g, pm.ram[..], tree, pm.swapFile)
      && Contiguous(tree) && at in tree && OneSpareTable(g, tree, at)
    }

    /** What holds between accesses. */
    ghost predicate Valid()
      reads this, pm, pm.ram
      ensures Valid() <==> Walking([])
    {
      Walking([])
    }

    /** The words of every page touched so far. */
    ghost function Pages(): map<nat, seq<int>>
      requires pm.Valid() && pm.g == g && WellFormed(g, tree)
      reads this, pm, pm.ram
    {
      Contents(g, pm.ram[..], tree, pm.swapFile)
    }

    ghost function Now(): Moment
      reads this, pm, pm.ram
    {
      Moment(tree, pm.ram[..], pm.swapFile)
    }

    constructor (g: Geometry)
      requires Admissible(g)
      ensures Valid() && this.g == g && Pages() == map[] && fresh(pm) && fresh(pm.ram)
    {
      this.g := g;
      this.pm := new Ram(g);
      this.tree := map[[] := 0];
      new;
      EmptyTreeIsView(g, pm.ram[..]);
      EmptyTreeHoldsSwap(g, pm.ram[..], map[]);
    }

    /** Keeps the farther of two candidates; the earlier one on a tie. */
    method CyclicDistance(maxCyclic: Candidate, tmp: Candidate, originalPage: nat) returns (best: Candidate)
      requires originalPage < g.pages && tmp.page < g.pages
      ensures var d := RingDistance(g.pages, originalPage, tmp.page);
              best == if d > maxCyclic.distance then tmp.(distance := d) else maxCyclic
    {
      var ans := 0;
      if originalPage - tmp.page < 0 {
        ans := ans - (originalPage - tmp.page);
      } else {
        ans := originalPage - tmp.page;
      }
      var sub := 0;
      if g.pages - ans > ans {
        sub := ans;
      } else {
        sub := g.pages - ans;
      }
      best := maxCyclic;
      if sub > maxCyclic.distance {
        best := Candidate(tmp.page, tmp.frame, tmp.parent, sub, tmp.offset);
      }
    }

    /** Depth-first search of the subtree at `at`, whose frame is `curAddress`. */
    method TreeTraversal(curAddress: nat, parent: nat, path: nat, curDepth: nat,
                         maxCyclic: Candidate, originalPage: nat, maximalFrame: nat,
                         offset: nat, oldFrame: nat, ghost at: Path, ghost tree: Tree, ghost mem: Memory)
      returns (found: RecursionFrame, best: Candidate, maximal: nat)
      requires pm.Valid() && pm.g == g && mem == pm.ram[..] && originalPage < g.pages
      requires Admissible(g) && IsView(g, mem, tree) && LeavesArePages(g, tree)
      requires at in tree && tree[at] == curAddress && |at| == curDepth
      requires path == PathNumber(g.pageSize, at)
      requires at != [] ==> Parent(at) in tree && parent == tree[Parent(at)] && offset == Last(at)
      ensures Searched(g, tree, at, oldFrame, originalPage, maxCyclic, maximalFrame, found, best, maximal)
      decreases g.depth - curDepth
    {
      hide *;
      FrameFacts(g, mem, tree, at);
      best, maximal := maxCyclic, maximalFrame;
      if curDepth == g.depth {
        var tmp := Candidate(path, curAddress, parent, 0, offset);
        best := CyclicDistance(maxCyclic, tmp, originalPage);
        found := RecursionFrame(curAddress, parent, false, curDepth, offset);
        SearchLeaf(g, tree, at, oldFrame, originalPage, maxCyclic, maximalFrame, found, best);
        return;
      }
      var unused := true;
      ScanStart(g, tree, at, oldFrame, originalPage, maxCyclic, maximalFrame);
      for j := 0 to g.pageSize
        invariant ScannedUpTo(g, tree, at, j, oldFrame, originalPage, maxCyclic, maximalFrame, unused, best, maximal)
      {
        pm.ReadsWord(curAddress, j);
        var newAdd := WordAddress(g, curAddress, j);
        var value := pm.PMread(newAdd);
        CellIsLink(g, mem, tree, at, j);
        if value != 0 {
          ParentOfChild(at, j);
          ChildNumber(g.pageSize, at, j);
          var addPath := Append(g.pageSize, path, j);
          var child, best', maximal' :=
            TreeTraversal(value, curAddress, addPath, curDepth + 1, best, originalPage, maximal, j, oldFrame, Child(at, j), tree, mem);
          ghost var below := maximal';
          if maximal' < child.frame {
            maximal' := child.frame;
          }
          if child.unused && oldFrame != child.frame {
            ScanFinds(g, tree, at, j, oldFrame, originalPage, maxCyclic, maximalFrame, unused, best, maximal,
                      child, best', below, maximal');
            return child, best', maximal';
          }
          ScanVisit(g, tree, at, j, oldFrame, originalPage, maxCyclic, maximalFrame, unused, best, maximal,
                    child, best', below);
          unused, best, maximal := false, best', maximal';
        } else {
          ScanSkip(g, tree, at, j, oldFrame, originalPage, maxCyclic, maximalFrame, unused, best, maximal);
        }
      }
      found := RecursionFrame(curAddress, parent, unused, curDepth, offset);
      ScanEnd(g, tree, at, oldFrame, originalPage, maxCyclic, maximalFrame, best, maximal, found);
    }

    /** Clears the cell of a table that links to the frame at `e`. */
    method ClearLink(parent: nat, offset: nat, ghost e: Path)
      requires pm.Valid() && pm.g == g && parent < g.frames && offset < g.pageSize
      modifies this`tree, pm.ram
      ensures pm.Valid() && |old(pm.ram[..])| == g.frames && |old(pm.ram[..])[parent]| == g.pageSize
      ensures pm.ram[..] == Poke(old(pm.ram[..]), parent, offset, 0)
      ensures tree == old(tree) - {e}
    {
      pm.ReadsWord(parent, offset);
      pm.PMwrite(WordAddress(g, parent, offset), 0);
      tree := tree - {e};
    }

    /** Chooses the frame for the missing entry below table `at`: the first
        spare table, else the next frame number never used, else the frame of
        the page farthest from `pageNum`. */
    method EmptyFrame(pageNum: nat, oldFrame: nat, ghost at: Path) returns (frame: nat)
      requires Walking(at) && pageNum < g.pages && |at| < g.depth
      requires tree[at] == oldFrame && PathOf(g, pageNum) !in tree
      modifies this`tree, pm, pm.ram
      ensures pm.Valid() && Consistent(g, pm.ram[..], tree, pm.swapFile)
      ensures Pages() == old(Pages())
      ensures 0 < frame < g.frames && frame !in tree.Values
      ensures Chooses(g, old(tree), old(pm.ram[..]), old(pm.swapFile), pageNum, oldFrame, frame, tree, pm.swapFile)
    {
      hide *;
      WalkFacts(at);
      var none := Candidate(0, 0, 0, 0, 0);
      ghost var mem, tree0, swap := pm.ram[..], tree, pm.swapFile;
      var chosen, best, maximal := TreeTraversal(0, 0, 0, 0, none, pageNum, 0, 0, oldFrame, [], tree, mem);
      SpareTest(g, tree, oldFrame, pageNum, none, chosen, best, maximal);

      // an unused table
      if chosen.unused && chosen.depth < g.depth && chosen.frame != oldFrame {
        ghost var e := ReclaimFound(g, mem, tree, swap, at, oldFrame, pageNum, none, chosen, best, maximal);
        ClearLink(chosen.parent, chosen.offset, e);
        PagesAre();
        return chosen.frame;
      }

      // a frame never used
      FreshFound(g, tree, oldFrame, pageNum, none, chosen, best, maximal);
      if maximal + 1 < g.frames {
        ChoosesFresh(g, tree, mem, swap, pageNum, oldFrame);
        return maximal + 1;
      }

      // the farthest resident page
      ghost var q := EvictFound(g, mem, tree, swap, at, oldFrame, pageNum, none, chosen, best, maximal);
      pm.PMevict(best.frame, best.page);
      ClearLink(best.parent, best.offset, q);
      PagesAre();
      return best.frame;
    }

    /** What the walk's invariant says, one fact at a time. */
    lemma WalkFacts(at: Path)
      requires Walking(at)
      ensures pm.Valid() && pm.g == g && Admissible(g) && g.pageSize > 0
      ensures Shaped(g, pm.ram[..]) && |pm.ram[..]| == g.frames
      ensures WellFormed(g, tree) && Contiguous(tree) && OneSpareTable(g, tree, at)
      ensures Consistent(g, pm.ram[..], tree, pm.swapFile)
      ensures IsView(g, pm.ram[..], tree) && LeavesArePages(g, tree)
      ensures at in tree && [] in tree && tree[[]] == 0 && PathNumber(g.pageSize, []) == 0
      ensures Pages() == Contents(g, pm.ram[..], tree, pm.swapFile)
    {
    }

    lemma NowIs()
      ensures Now() == Moment(tree, pm.ram[..], pm.swapFile)
    {
    }

    lemma PagesAre()
      requires pm.Valid() && pm.g == g && Admissible(g) && Consistent(g, pm.ram[..], tree, pm.swapFile)
      ensures WellFormed(g, tree) && Shaped(g, pm.ram[..])
      ensures Pages() == Contents(g, pm.ram[..], tree, pm.swapFile)
    {
    }

    method ClearMemory(idx: nat, clearAll: bool)
      requires pm.Valid() && pm.g == g && (!clearAll ==> idx < g.frames)
      modifies pm.ram
      ensures pm.Valid()
      ensures clearAll ==> forall f :: 0 <= f < g.frames ==> pm.ram[f] == seq(g.pageSize, _ => 0)
      ensures !clearAll ==> pm.ram[..] == old(pm.ram[..])[idx := seq(g.pageSize, _ => 0)]
    {
      if !clearAll {
        ClearFrame(idx);
      } else {
        for i := 0 to g.frames
          invariant pm.Valid()
          invariant forall f :: 0 <= f < i ==> pm.ram[f] == seq(g.pageSize, _ => 0)
        {
          ghost var before := pm.ram[..];
          ClearFrame(i);
          assert forall f :: 0 <= f < g.frames && f != i ==> pm.ram[..][f] == before[f];
        }
      }
    }

    /** The inner loop of `ClearMemory`. */
    method ClearFrame(idx: nat)
      requires pm.Valid() && pm.g == g && idx < g.frames
      modifies pm.ram
      ensures pm.Valid()
      ensures pm.ram[..] == old(pm.ram[..])[idx := seq(g.pageSize, _ => 0)]
    {
      ghost var before := pm.ram[..];
      for i := 0 to g.pageSize
        invariant pm.Valid()
        invariant forall f :: 0 <= f < g.frames && f != idx ==> pm.ram[..][f] == before[f]
        invariant forall k :: 0 <= k < i ==> pm.ram[..][idx][k] == 0
      {
        WordInFrame(g, idx, i);
        pm.PMwrite(WordAddress(g, idx, i), 0);
      }
      assert pm.ram[..][idx] == seq(g.pageSize, _ => 0);
    }

    /** Forgets every resident page; pages in the swap file survive. */
    method VMinitialize()
      requires pm.Valid() && pm.g == g && Admissible(g)
      requires forall page :: page in pm.swapFile ==> page < g.pages && |pm.swapFile[page]| == g.pageSize
      modifies this`tree, pm.ram
      ensures Valid() && Pages() == pm.swapFile
    {
      ClearMemory(0, true);
      tree := map[[] := 0];
      EmptyTreeIsView(g, pm.ram[..]);
      EmptyTreeHoldsSwap(g, pm.ram[..], pm.swapFile);
    }

    /** The walk's invariant put together again. */
    lemma NowWalking(at: Path)
      requires pm.Valid() && pm.g == g && Admissible(g)
      requires Consistent(g, pm.ram[..], tree, pm.swapFile)
      requires Contiguous(tree) && at in tree && OneSpareTable(g, tree, at)
      ensures Walking(at)
    {
    }

    /** Fills the empty cell that the walk to `virtualAddress` met at `depth`. */
    method FindEmptyCell(depth: nat, virtualAddress: nat, address: nat, oldFrame: nat, ghost at: Path)
      returns (frame: nat)
      requires Walking(at) && InRange(g, virtualAddress)
      requires depth < g.depth && at == PathTo(g, virtualAddress)[..depth] && tree[at] == oldFrame
      requires address == WordAddress(g, oldFrame, PathTo(g, virtualAddress)[depth])
      requires PathTo(g, virtualAddress)[..depth + 1] !in tree
      modifies this`tree, pm, pm.ram
      ensures var c := PathTo(g, virtualAddress)[..depth + 1];
              Walking(c) && tree[c] == frame
      ensures SamePrefixes(old(tree), tree, at)
      ensures depth + 1 < g.depth ==> Pages() == old(Pages())
      ensures depth + 1 == g.depth ==> OnlyTouches(g, old(Pages()), Pages(), PageOf(g, virtualAddress))
      ensures Fault(g, PageOf(g, virtualAddress), depth, old(Now()), Now())
    {
      hide *;
      ghost var before := Now();
      NowIs();
      WalkFacts(at);
      StepFacts(g, tree, virtualAddress, depth);
      var pageNum := PageOf(g, virtualAddress);
      ghost var idx := PathTo(g, virtualAddress)[depth];
      ghost var c := Child(at, idx);
      ghost var tree0, mem0, swap0 := tree, pm.ram[..], pm.swapFile;
      frame := EmptyFrame(pageNum, oldFrame, at);
      ghost var tree1, mem1, swap1 := tree, pm.ram[..], pm.swapFile;
      PagesAre();
      WalkSurvives(g, tree0, mem0, swap0, pageNum, oldFrame, frame, tree1, swap1, at, idx);
      pm.ReadsWord(oldFrame, idx);
      LinkKeepsPrefixes(tree0, tree1, at, idx, frame);
      tree := tree[c := frame];
      if g.depth - 1 == depth {
        LinkPageKeepsOthers(g, mem1, tree1, swap1, at, idx, frame, pageNum);
        SwapWords(g, mem1, tree1, swap1, pageNum);
        RestoredIs(mem1, swap1, frame, pageNum);
        pm.PMrestore(frame, pageNum);
        pm.PMwrite(address, frame);
        PagesAre();
        TouchesOne(g, mem1, tree1, swap1, frame, pageNum, Pages());
      } else {
        LinkTableKeepsPages(g, mem1, tree1, swap1, at, idx, frame);
        ClearMemory(frame, false);
        pm.PMwrite(address, frame);
        PagesAre();
      }
      NowWalking(c);
      NowIs();
      FaultIs(g, pageNum, depth, before, Now(), tree1, swap1);
    }

    /** Translates an address, building the missing part of the path. */
    method ExtractPhysicalAdd(virtualAddress: nat) returns (address: nat)
      requires Valid() && InRange(g, virtualAddress)
      modifies this`tree, pm, pm.ram
      ensures Valid() && PathTo(g, virtualAddress) in tree
      ensures address == WordAddress(g, tree[PathTo(g, virtualAddress)], OffsetOf(g, virtualAddress))
      ensures OnlyTouches(g, old(Pages()), Pages(), PageOf(g, virtualAddress))
      ensures Walked(g, PageOf(g, virtualAddress), g.depth, old(Now()), Now())
    {
      hide *;
      ghost var path := PathTo(g, virtualAddress);
      PathFacts(g, virtualAddress);
      WalkFacts([]);
      var tempAddr, oldFrame, parent := 0, 0, 0;
      var offset := OffsetOf(g, virtualAddress);
      assert path[..0] == [];
      WalkStarts(g, PageOf(g, virtualAddress), Now());
      for i := 0 to g.depth
        invariant Walking(path[..i]) && tree[path[..i]] == tempAddr == oldFrame
        invariant parent == WordAddress(g, tempAddr, 0)
        invariant i < g.depth ==> Pages() == old(Pages())
        invariant i == g.depth ==> OnlyTouches(g, old(Pages()), Pages(), PageOf(g, virtualAddress))
        invariant Walked(g, PageOf(g, virtualAddress), i, old(Now()), Now())
      {
        WalkFacts(path[..i]);
        ghost var mid := Now();
        NowIs();
        var idx := TableIndex(g.pageSize, g.depth, virtualAddress, i);
        StepFacts(g, tree, virtualAddress, i);
        CellIsLink(g, pm.ram[..], tree, path[..i], idx);
        pm.ReadsWord(tempAddr, idx);
        NextWord(g, tempAddr, idx);
        tempAddr := pm.PMread(parent + idx);
        if tempAddr == 0 {
          tempAddr := FindEmptyCell(i, virtualAddress, parent + idx, oldFrame, path[..i]);
        } else {
          StillOneSpare(g, tree, path[..i], idx);
          NowWalking(path[..i + 1]);
          if i + 1 == g.depth {
            AlreadyThere(g, pm.ram[..], tree, pm.swapFile, virtualAddress);
          }
        }
        WalkGoesOn(g, PageOf(g, virtualAddress), i, old(Now()), mid, Now());
        oldFrame := tempAddr;
        parent := WordAddress(g, tempAddr, 0);
      }
      assert path[..g.depth] == path;
      WalkFacts(path);
      BackToRoot(g, tree, path);
      NowWalking([]);
      NextWord(g, tempAddr, offset);
      return WordAddress(g, tempAddr, offset);
    }

    method VMwrite(virtualAddress: nat, value: int) returns (ok: int)
      requires Valid()
      modifies this`tree, pm, pm.ram
      ensures Valid()
      ensures ok == if InRange(g, virtualAddress) then 1 else 0
      ensures Performs(g, old(Pages()), Write(virtualAddress, value), Pages())
      ensures InRange(g, virtualAddress) ==> Translated(g, PageOf(g, virtualAddress), old(Now()), tree, pm.swapFile)
      ensures InRange(g, virtualAddress) && PathTo(g, virtualAddress) in old(tree) ==>
                tree == old(tree) && pm.swapFile == old(pm.swapFile)
      ensures !InRange(g, virtualAddress) ==> Now() == old(Now())
    {
      hide *;
      ghost var before := Now();
      NowIs();
      WalkFacts([]);
      RangeTest(g, virtualAddress);
      if VirtualMemorySize(g) <= virtualAddress {
        Rejected(g, Pages(), Write(virtualAddress, value));
        return 0;
      }
      PathFacts(g, virtualAddress);
      var physicalAdd := ExtractPhysicalAdd(virtualAddress);
      WalkFacts([]);
      ghost var page, offset, touched := PageOf(g, virtualAddress), OffsetOf(g, virtualAddress), Pages();
      NowIs();
      Recorded(g, virtualAddress, before, Now());
      ResidentWord(g, pm.ram[..], tree, pm.swapFile, virtualAddress);
      WriteWord(g, pm.ram[..], tree, pm.swapFile, page, offset, value);
      pm.ReadsWord(tree[PathTo(g, virtualAddress)], offset);
      pm.PMwrite(physicalAdd, value);
      PagesAre();
      NowWalking([]);
      WriteOf(g, old(Pages()), touched, virtualAddress, value, Pages());
      return 1;
    }

    method VMread(virtualAddress: nat) returns (ok: int, value: int)
      requires Valid()
      modifies this`tree, pm, pm.ram
      ensures Valid()
      ensures ok == if InRange(g, virtualAddress) then 1 else 0
      ensures Performs(g, old(Pages()), Read(virtualAddress, value), Pages())
      ensures InRange(g, virtualAddress) ==> Translated(g, PageOf(g, virtualAddress), old(Now()), tree, pm.swapFile)
      ensures InRange(g, virtualAddress) && PathTo(g, virtualAddress) in old(tree) ==> Now() == old(Now())
      ensures !InRange(g, virtualAddress) ==> Now() == old(Now())
    {
      hide *;
      ghost var before := Now();
      NowIs();
      WalkFacts([]);
      RangeTest(g, virtualAddress);
      if VirtualMemorySize(g) <= virtualAddress {
        Rejected(g, Pages(), Read(virtualAddress, 0));
        return 0, 0;
      }
      PathFacts(g, virtualAddress);
      var physicalAdd := ExtractPhysicalAdd(virtualAddress);
      WalkFacts([]);
      ResidentWord(g, pm.ram[..], tree, pm.swapFile, virtualAddress);
      NowIs();
      Recorded(g, virtualAddress, before, Now());
      pm.ReadsWord(tree[PathTo(g, virtualAddress)], OffsetOf(g, virtualAddress));
      value := pm.PMread(physicalAdd);
      ReadOf(g, old(Pages()), Pages(), virtualAddress, value);
      return 1, value;
    }
  }
}

/** The simulated RAM and the swap file behind it. */
module PhysicalMemory {
  import opened PageNumbers

  /** The compile-time constants: words per frame, frames in RAM, pages of
      virtual memory, levels of page tables. */
  datatype Geometry = Geometry(pageSize: nat, frames: nat, pages: nat, depth: nat)

  /** RAM contents: `frames` frames of `pageSize` words each. */
  type Memory = seq<seq<int>>

  ghost predicate Shaped(g: Geometry, mem: Memory) {
    && |mem| == g.frames
    && forall f :: 0 <= f < |mem| ==> |mem[f]| == g.pageSize
  }

  /** `mem` with one word replaced. */
  function Poke(mem: Memory, f: nat, j: nat, v: int): Memory
    requires f < |mem| && j < |mem[f]|
  {
    mem[f := mem[f][j := v]]
  }

  class Ram {
    const g: Geometry
    const ram: array<seq<int>>
    var swapFile: map<nat, seq<int>>

    ghost predicate Valid()
      reads this, ram
    {
      g.pageSize > 0 && ram.Length == g.frames && Shaped(g, ram[..])
    }

    constructor (g: Geometry)
      requires g.pageSize > 0
      ensures Valid() && fresh(ram) && this.g == g && swapFile == map[]
      ensures forall f :: 0 <= f < g.frames ==> ram[f] == seq(g.pageSize, _ => 0)
    {
      this.g := g;
      this.ram := new seq<int>[g.frames](_ => seq(g.pageSize, _ => 0));
      this.swapFile := map[];
    }

    /** Reads one word; the address is split by the frame size. */
    function PMread(physicalAddress: nat): (value: int)
      requires Valid()
      requires physicalAddress < RamSize(g)
      reads this, ram
    {
      FrameInRange(physicalAddress, g);
      var frameIndex := physicalAddress / g.pageSize;
      var frameOffset := physicalAddress % g.pageSize;
      assert ram[..][frameIndex] == ram[frameIndex];
      ram[frameIndex][frameOffset]
    }

    /** Reading the address of word `j` of frame `f`. */
    lemma ReadsWord(f: nat, j: nat)
      requires Valid() && f < g.frames && j < g.pageSize
      ensures WordAddress(g, f, j) < RamSize(g)
      ensures PMread(WordAddress(g, f, j)) == ram[..][f][j]
    {
      WordInFrame(g, f, j);
    }

    /** Writes one word. For the address of word `j` of frame `f` that word
        changes and no other. */
    method PMwrite(physicalAddress: nat, value: int)
      requires Valid()
      requires physicalAddress < RamSize(g)
      modifies ram
      ensures Valid()
      ensures forall f: nat, j: nat :: f < g.frames && j < g.pageSize && physicalAddress == WordAddress(g, f, j) ==>
                ram[..] == Poke(old(ram[..]), f, j, value)
    {
      ghost var before := ram[..];
      forall f: nat, j: nat | f < g.frames && j < g.pageSize && physicalAddress == WordAddress(g, f, j)
        ensures f == physicalAddress / g.pageSize && j == physicalAddress % g.pageSize
      {
        WordInFrame(g, f, j);
      }
      FrameInRange(physicalAddress, g);
      var frameIndex := physicalAddress / g.pageSize;
      var frameOffset := physicalAddress % g.pageSize;
      assert |ram[..][frameIndex]| == g.pageSize;
      ram[frameIndex] := ram[frameIndex][frameOffset := value];
      assert ram[..] == Poke(before, frameIndex, frameOffset, value);
    }

    /** Copies a frame to the swap file. The three asserts of the original are
        the last three preconditions. */
    method PMevict(frameIndex: nat, evictedPageIndex: nat)
      requires Valid()
      requires frameIndex < g.frames
      requires evictedPageIndex < g.pages
      requires evictedPageIndex !in swapFile
      modifies this`swapFile
      ensures swapFile == old(swapFile)[evictedPageIndex := ram[frameIndex]]
    {
      swapFile := swapFile[evictedPageIndex := ram[frameIndex]];
    }

    /** Moves a page from the swap file into a frame; a page that was never
        swapped out leaves the frame as it is. */
    method PMrestore(frameIndex: nat, restoredPageIndex: nat)
      requires Valid()
      requires frameIndex < g.frames
      requires restoredPageIndex in swapFile ==> |swapFile[restoredPageIndex]| == g.pageSize
      modifies this`swapFile, ram
      ensures Valid()
      ensures swapFile == old(swapFile) - {restoredPageIndex}
      ensures ram[..] == if restoredPageIndex in old(swapFile)
                         then old(ram[..])[frameIndex := old(swapFile)[restoredPageIndex]]
                         else old(ram[..])
    {
      if restoredPageIndex !in swapFile {
        return;
      }
      ram[frameIndex] := swapFile[restoredPageIndex];
      swapFile := swapFile - {restoredPageIndex};
    }
  }

  /** The linear address of a word. */
  function WordAddress(g: Geometry, frame: nat, offset: nat): nat {
    frame * g.pageSize + offset
  }

  function RamSize(g: Geometry): nat {
    g.frames * g.pageSize
  }

  lemma FrameInRange(address: nat, g: Geometry)
    requires g.pageSize > 0 && address < RamSize(g)
    ensures address / g.pageSize < g.frames
  {
    var f := address / g.pageSize;
    assert address == f * g.pageSize + address % g.pageSize;
    if f >= g.frames {
      MulMonotone(g.frames, f, g.pageSize);
      assert false;
    }
  }

  /** A word of a frame has an address in RAM, and it splits back. */
  lemma WordInFrame(g: Geometry, frame: nat, j: nat)
    requires frame < g.frames && j < g.pageSize
    ensures WordAddress(g, frame, j) < RamSize(g)
    ensures WordAddress(g, frame, j) / g.pageSize == frame && WordAddress(g, frame, j) % g.pageSize == j
  {
    CarryLess(frame, g.frames, g.pageSize, j);
    SplitAddress(g.pageSize, frame, j);
  }
}

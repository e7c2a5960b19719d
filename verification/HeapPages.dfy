/** The page hook of the heap: a table of the physical pages mapped in the heap window, kept in
    step with the kernel's page tables. */
module HeapPages {
  import opened Common
  import opened FirstFit
  import opened Physical
  import opened PageTables
  import opened Mmu
  import Boot

  const HEAP_ADDRESS: nat := 0xFFFF_FFFF_0000_0000
  const HEAP_PAGES: nat := 0x8_0000

  /** The virtual page of heap page i: bits 12 to 47 of HEAP_ADDRESS + i * 4096. */
  function HeapPage(i: nat): nat {
    0xF_FFF0_0000 + i
  }

  lemma HeapPageAddress(i: nat)
    requires i < HEAP_PAGES
    ensures HeapPage(i) == (0xFFFF_FFFF_0000_0000 + i * 4096) / 4096 % PAGES
    ensures HEAP_ADDRESS == 0xFFFF_FFFF_0000_0000 && HEAP_PAGES * 4096 == 0x8000_0000
    ensures HeapPage(i) < PAGES && !Lower(HeapPage(i))
  {
    PageOfHeap(i);
    HighPages(0xF_FFFF_FFF0_0000 + i);
    HeapIsUpper(i);
  }

  lemma PageOfHeap(i: nat)
    ensures (0xFFFF_FFFF_0000_0000 + i * 4096) / 4096 == 0xF_FFFF_FFF0_0000 + i
  {
    assert 0xFFFF_FFFF_0000_0000 + i * 4096 == (0xF_FFFF_FFF0_0000 + i) * 4096;
  }

  lemma HighPages(p: nat)
    requires 0xFFFF * PAGES <= p < 0x1_0000 * PAGES
    ensures p % PAGES == p - 0xFFFF * PAGES
  {
  }

  lemma HeapIsUpper(i: nat)
    requires i < HEAP_PAGES
    ensures HeapPage(i) < PAGES && !Lower(HeapPage(i))
  {
    assert HeapPage(i) / 0x800_0000 == 511;
  }

  /** At boot the heap's pages are as its hook needs them: not mapped, and away from every large page. */
  lemma HeapAtBoot(n: nat, b: Boot.Frames, i: nat)
    requires b.Apart(n) && i < HEAP_PAGES
    ensures Translate(Boot.BootMemory(n, b), b.root, HeapPage(i)).None? && Clear(Boot.BootMemory(n, b), b.root, 4, HeapPage(i))
  {
    hide Walk, Clear, Boot.BootMemory;
    HeapPageAddress(i);
    Boot.BootPages(n, b, HeapPage(i));
  }

  const WRITE := Flags(true, false, false, false, false, false)

  /** Entry i of the table tells the truth: zero for an unmapped page, and otherwise the address
      of the frame it is mapped to, in use and not part of any page table. No large page lies there. */
  ghost predicate EntryAgrees(mem: Memory, tree: Tree, used: set<nat>, kernel: nat, a: nat, i: nat) {
    && Clear(mem, kernel, 4, HeapPage(i))
    && if a == 0 then Translate(mem, kernel, HeapPage(i)).None?
       else
         && a % PAGE_SIZE == 0
         && Translate(mem, kernel, HeapPage(i)) == Some(Pml(true, false, a / PAGE_SIZE, Flags(true, false, false, false, false, false)))
         && a / PAGE_SIZE in used && a / PAGE_SIZE !in tree && a / PAGE_SIZE < |mem|
  }

  ghost predicate Agrees(mem: Memory, tree: Tree, used: set<nat>, kernel: nat, pages: seq<nat>) {
    && |pages| == HEAP_PAGES
    && (forall i :: 0 <= i < HEAP_PAGES ==> EntryAgrees(mem, tree, used, kernel, pages[i], i))
    && (forall i, j :: 0 <= i < j < HEAP_PAGES && pages[i] != 0 ==> pages[i] != pages[j])
  }

  ghost function FreeCells(pages: seq<nat>): set<int> {
    set i: int | 0 <= i < |pages| && pages[i] == 0
  }

  /** The frames named by entries lo to hi-1. */
  ghost function FramesOf(pages: seq<nat>, lo: nat, hi: nat): set<nat>
    requires hi <= |pages|
  {
    set i | lo <= i < hi :: pages[i] / PAGE_SIZE
  }

  lemma AgreesAfterMap(mem: Memory, tree: Tree, used: set<nat>, kernel: nat, pages: seq<nat>,
                       mem': Memory, tree': Tree, used': set<nat>, i: nat, f: nat)
    requires Agrees(mem, tree, used - {f}, kernel, pages) && IsRoot(tree, kernel)
    requires i < HEAP_PAGES && pages[i] == 0 && f != 0 && f in used && f < |mem| && f !in tree
    requires Updates(mem, tree, mem', kernel, HeapPage(i), Leaf(f, WRITE)) && PathsKept(mem, tree, mem')
    requires used <= used' && tree'.Keys <= tree.Keys + (used' - used) && |mem'| == |mem|
    ensures Agrees(mem', tree', used', kernel, pages[i := f * PAGE_SIZE])
  {
    hide Walk, Clear;
    var pages' := pages[i := f * PAGE_SIZE];
    forall j | 0 <= j < HEAP_PAGES ensures EntryAgrees(mem', tree', used', kernel, pages'[j], j) {
      assert EntryAgrees(mem, tree, used - {f}, kernel, pages[j], j);
      assert HeapPage(j) < PAGES;
      assert SamePath(mem, kernel, kernel, HeapPage(i));
    }
  }

  lemma AgreesAfterUnmap(mem: Memory, tree: Tree, used: set<nat>, kernel: nat, pages: seq<nat>, mem': Memory, i: nat)
    requires Agrees(mem, tree, used, kernel, pages) && IsRoot(tree, kernel)
    requires i < HEAP_PAGES && pages[i] != 0
    requires Updates(mem, tree, mem', kernel, HeapPage(i), ABSENT) && PathsKept(mem, tree, mem') && |mem'| == |mem|
    ensures Agrees(mem', tree, used - {pages[i] / PAGE_SIZE}, kernel, pages[i := 0])
  {
    hide Walk, Clear;
    var pages', used' := pages[i := 0], used - {pages[i] / PAGE_SIZE};
    forall j | 0 <= j < HEAP_PAGES ensures EntryAgrees(mem', tree, used', kernel, pages'[j], j) {
      assert EntryAgrees(mem, tree, used, kernel, pages[j], j);
      assert EntryAgrees(mem, tree, used, kernel, pages[i], i);
      assert HeapPage(j) < PAGES;
      assert SamePath(mem, kernel, kernel, HeapPage(i));
    }
  }

  /** Null is NULL; Panic is the kernel panic of an empty frame bitmap. */
  datatype Block = Null | Panic | At(address: nat)

  class PageHook {
    const mmu: Mmu
    const kernel: nat
    const physicalPages: array<nat>

    constructor (m: Mmu, root: nat, table: array<nat>)
      requires m.Valid() && IsRoot(m.tree, root) && 0 in m.frames.Used()
      requires table.Length == HEAP_PAGES && (forall i :: 0 <= i < HEAP_PAGES ==> table[i] == 0)
      requires forall i: nat :: i < HEAP_PAGES ==> Translate(m.memory, root, HeapPage(i)).None? && Clear(m.memory, root, 4, HeapPage(i))
      ensures Valid() && mmu == m && kernel == root && physicalPages == table
    {
      mmu, kernel, physicalPages := m, root, table;
    }

    /** Frame 0 is never free: zero in the table must mean unmapped. */
    ghost predicate Valid()
      reads this, mmu, mmu.frames.bytes, physicalPages
    {
      && mmu.Valid() && IsRoot(mmu.tree, kernel) && 0 in mmu.frames.Used()
      && Agrees(mmu.memory, mmu.tree, mmu.frames.Used(), kernel, physicalPages[..])
    }

    /** The frames in use that are not page tables. */
    ghost function DataFrames(): set<nat>
      reads mmu, mmu.frames.bytes
    {
      mmu.frames.Used() - mmu.tree.Keys
    }

    /** Gives heap page i a frame and maps it. */
    method Back(i: nat) returns (ok: bool)
      requires Valid() && i < HEAP_PAGES && physicalPages[i] == 0
      modifies mmu`memory, mmu`tree, mmu.frames.bytes, physicalPages
      ensures ok ==> Valid() && physicalPages[i] != 0 && physicalPages[..] == old(physicalPages[..])[i := physicalPages[i]]
      ensures ok ==> DataFrames() == old(DataFrames()) + {physicalPages[i] / PAGE_SIZE}
      ensures ok ==> physicalPages[i] / PAGE_SIZE !in old(DataFrames())
      ensures !ok ==> mmu.OutOfFrames()
      ensures old(mmu.frames.Used()) <= mmu.frames.Used()
      ensures ok ==> physicalPages[i] / PAGE_SIZE !in old(mmu.frames.Used()) && physicalPages[i] % PAGE_SIZE == 0
      ensures ok ==> forall f: nat :: f < physicalPages[i] / PAGE_SIZE ==> f in old(mmu.frames.Used())
      ensures ok ==> physicalPages[i] / PAGE_SIZE in mmu.frames.Used()
    {
      hide UsedFrames, WellFormed, Updates, Walk, Clear, PathsKept, Agrees, Mapped, DataKept, Doors, Open;
      ghost var used0, pages0 := mmu.frames.Used(), physicalPages[..];
      var f := mmu.GetFrame();
      if f.None? { return false; }
      ghost var mem, tree, used := mmu.memory, mmu.tree, mmu.frames.Used();
      assert used - {f.value} == used0;
      HeapPageAddress(i);
      AgreesAt(mem, tree, used0, kernel, pages0, i);
      physicalPages[i] := f.value * PAGE_SIZE;
      ok := mmu.MapPage(physicalPages[i] / PAGE_SIZE, HeapPage(i), WRITE, kernel, false);
      if ok {
        AgreesAfterMap(mem, tree, used, kernel, pages0, mmu.memory, mmu.tree, mmu.frames.Used(), i, f.value);
        assert physicalPages[..] == pages0[i := physicalPages[i]];
      }
    }

    /** Unmaps heap page i and frees its frame. */
    method Release(i: nat)
      requires Valid() && i < HEAP_PAGES && physicalPages[i] != 0
      modifies mmu`memory, mmu`tree, mmu.frames.bytes, physicalPages
      ensures Valid() && physicalPages[..] == old(physicalPages[..])[i := 0]
      ensures DataFrames() == old(DataFrames()) - {old(physicalPages[i]) / PAGE_SIZE}
      ensures mmu.tree == old(mmu.tree)
      ensures old(physicalPages[i]) / PAGE_SIZE in old(DataFrames())
    {
      hide UsedFrames, WellFormed, Updates, Walk, Clear, PathsKept, Agrees, Unmapped;
      ghost var mem, tree, used, pages0 := mmu.memory, mmu.tree, mmu.frames.Used(), physicalPages[..];
      AgreesAt(mem, tree, used, kernel, pages0, i);
      HeapPageAddress(i);
      ZeroFrame(physicalPages[i]);
      mmu.FreeFrame(physicalPages[i] / PAGE_SIZE);
      var f := mmu.UnmapPage(HeapPage(i), kernel);
      AgreesAfterUnmap(mem, tree, used, kernel, pages0, mmu.memory, i);
      physicalPages[i] := 0;
      assert physicalPages[..] == pages0[i := 0];
    }

    /** Backs the `size` free pages that end at `last`, from the last one down. */
    method Fill(last: nat, size: nat) returns (ok: bool)
      requires Valid() && last < HEAP_PAGES && size <= last + 1
      requires forall k :: last + 1 - size <= k <= last ==> physicalPages[k] == 0
      modifies mmu`memory, mmu`tree, mmu.frames.bytes, physicalPages
      ensures !ok ==> mmu.OutOfFrames()
      ensures ok ==> Valid() && Backed(old(physicalPages[..]), physicalPages[..], last + 1 - size, size)
      ensures ok ==> DataFrames() == old(DataFrames()) + FramesOf(physicalPages[..], last + 1 - size, last + 1)
      ensures ok ==> old(DataFrames()) !! FramesOf(physicalPages[..], last + 1 - size, last + 1)
      ensures ok ==> Descending(physicalPages[..], last + 1 - size, size)
    {
      hide UsedFrames, WellFormed, Updates, Walk, Clear, PathsKept, Agrees, FramesOf;
      ghost var pages0, data0 := physicalPages[..], DataFrames();
      AgreesAt(mmu.memory, mmu.tree, mmu.frames.Used(), kernel, pages0, last);
      FramesOfNone(pages0, last + 1);
      var y := 0;
      while y < size
        invariant 0 <= y <= size
        invariant Valid() && Backed(pages0, physicalPages[..], last + 1 - y, y)
        invariant DataFrames() == data0 + FramesOf(physicalPages[..], last + 1 - y, last + 1)
        invariant data0 !! FramesOf(physicalPages[..], last + 1 - y, last + 1)
        invariant Descending(physicalPages[..], last + 1 - y, y)
        invariant y > 0 ==> physicalPages[last + 1 - y] / PAGE_SIZE in mmu.frames.Used()
        invariant y > 0 ==> forall f: nat :: f < physicalPages[last + 1 - y] / PAGE_SIZE ==> f in mmu.frames.Used()
      {
        ghost var pages1 := physicalPages[..];
        ok := Back(last - y);
        if !ok { return; }
        FramesOfStep(pages1, physicalPages[..], last - y, last + 1);
        assert y > 0 ==> physicalPages[last - y] > physicalPages[last - y + 1];
        DescendingStep(pages1, physicalPages[..], last - y, y);
        y := y + 1;
      }
      ok := true;
    }

    /** liballoc_alloc: the leftmost run of `size` free heap pages, each given a frame. */
    method Alloc(size: nat) returns (r: Block)
      requires Valid()
      modifies mmu`memory, mmu`tree, mmu.frames.bytes, physicalPages
      ensures r.Panic? ==> mmu.OutOfFrames()
      ensures r.Null? ==> Valid() && physicalPages[..] == old(physicalPages[..]) && DataFrames() == old(DataFrames())
      ensures r.Null? && size > 0 ==> NoRun(FreeCells(physicalPages[..]), Anywhere(), 0, HEAP_PAGES, size)
      ensures r.At? ==> r.address >= HEAP_ADDRESS && (r.address - HEAP_ADDRESS) % PAGE_SIZE == 0
      ensures r.At? ==>
        var base := (r.address - HEAP_ADDRESS) / PAGE_SIZE;
        && Valid() && base + size <= HEAP_PAGES && size > 0
        && IsFirst(FreeCells(old(physicalPages[..])), Anywhere(), 0, HEAP_PAGES, base, size)
        && Backed(old(physicalPages[..]), physicalPages[..], base, size)
        && DataFrames() == old(DataFrames()) + FramesOf(physicalPages[..], base, base + size)
        && old(DataFrames()) !! FramesOf(physicalPages[..], base, base + size)
        && Descending(physicalPages[..], base, size)
    {
      hide UsedFrames, WellFormed, Updates, Walk, Clear, PathsKept, Agrees, FramesOf, Scanned, NoRun, IsFirst, Backed;
      ghost var free := FreeCells(physicalPages[..]);
      var count := 0;
      ScanStart(free, Anywhere(), 0, size);
      assert physicalPages.Length == HEAP_PAGES by { AgreesAt(mmu.memory, mmu.tree, mmu.frames.Used(), kernel, physicalPages[..], 0); }
      for i := 0 to HEAP_PAGES
        invariant physicalPages[..] == old(physicalPages[..]) && Valid() && DataFrames() == old(DataFrames())
        invariant size > 0 ==> Scanned(free, Anywhere(), 0, i, size, count)
      {
        if physicalPages[i] == 0 {
          if size > 0 { ScanBound(free, Anywhere(), 0, i, size, count); StepFree(free, Anywhere(), 0, i, size, count); }
          count := count + 1;
          if count == size {
            FirstIsFree(physicalPages[..], i + 1, size);
            FirstLater(free, Anywhere(), 0, i + 1, HEAP_PAGES, i + 1 - size, size);
            var ok := Fill(i, size);
            if !ok { return Panic; }
            var y := size - 1;
            return At(HEAP_ADDRESS + (i - y) * PAGE_SIZE);
          }
        } else {
          if size > 0 { StepBusy(free, Anywhere(), 0, i, size, count); }
          count := 0;
        }
      }
      if size > 0 { ScannedAll(free, Anywhere(), 0, HEAP_PAGES, size, count); }
      r := Null;
    }

    /** liballoc_free on a range that is mapped. */
    method Free(address: nat, size: nat)
      requires Valid() && address >= HEAP_ADDRESS
      requires (address - HEAP_ADDRESS) / PAGE_SIZE + size <= HEAP_PAGES
      requires var base := (address - HEAP_ADDRESS) / PAGE_SIZE;
               forall k :: base <= k < base + size && k < physicalPages.Length ==> physicalPages[k] != 0
      modifies mmu`memory, mmu`tree, mmu.frames.bytes, physicalPages
      ensures Valid() && |old(physicalPages[..])| == HEAP_PAGES
      ensures var base := (address - HEAP_ADDRESS) / PAGE_SIZE;
        && Cleared(old(physicalPages[..]), physicalPages[..], base, size)
        && DataFrames() == old(DataFrames()) - FramesOf(old(physicalPages[..]), base, base + size)
      ensures mmu.tree == old(mmu.tree)
    {
      hide UsedFrames, WellFormed, Updates, Walk, Clear, PathsKept, Agrees, FramesOf;
      assert physicalPages.Length == HEAP_PAGES by { AgreesAt(mmu.memory, mmu.tree, mmu.frames.Used(), kernel, physicalPages[..], 0); }
      ghost var pages0, data0 := physicalPages[..], DataFrames();
      var baseIndex := (address - HEAP_ADDRESS) / PAGE_SIZE;
      FramesOfNone(pages0, baseIndex);
      for i := baseIndex to baseIndex + size
        invariant Valid() && mmu.tree == old(mmu.tree)
        invariant Cleared(pages0, physicalPages[..], baseIndex, i - baseIndex)
        invariant DataFrames() == data0 - FramesOf(pages0, baseIndex, i)
      {
        FramesOfEnd(pages0, baseIndex, i);
        Release(i);
      }
    }

    /** A run that is allocated and freed again leaves the table, the kernel's mappings of the
        heap and the data frames as they were. */
    method AllocThenFree(size: nat) returns (r: Block)
      requires Valid()
      modifies mmu`memory, mmu`tree, mmu.frames.bytes, physicalPages
      ensures !r.Panic? ==> Valid() && physicalPages[..] == old(physicalPages[..]) && DataFrames() == old(DataFrames())
      ensures !r.Panic? ==> forall i: nat :: i < HEAP_PAGES ==>
        Translate(mmu.memory, kernel, HeapPage(i)) == Translate(old(mmu.memory), kernel, HeapPage(i))
    {
      hide UsedFrames, WellFormed, Walk, Clear, FramesOf, NoRun, IsFirst;
      ghost var mem, tree, used, pages0 := mmu.memory, mmu.tree, mmu.frames.Used(), physicalPages[..];
      r := Alloc(size);
      if r.At? {
        ghost var base, pages1 := (r.address - HEAP_ADDRESS) / PAGE_SIZE, physicalPages[..];
        FirstRunIsFree(pages0, HEAP_PAGES, base, size);
        assert forall k :: base <= k < base + size ==> pages1[k] == physicalPages[k] != 0;
        Free(r.address, size);
        assert physicalPages[..] == pages0;
      }
      if !r.Panic? {
        forall i: nat | i < HEAP_PAGES
          ensures Translate(mmu.memory, kernel, HeapPage(i)) == Translate(mem, kernel, HeapPage(i))
        {
          AgreesAt(mem, tree, used, kernel, pages0, i);
          AgreesAt(mmu.memory, mmu.tree, mmu.frames.Used(), kernel, physicalPages[..], i);
        }
      }
    }
  }

  /** Between the two tables, exactly entries base to base+size-1 went from zero to nonzero. */
  ghost predicate Backed(pages: seq<nat>, pages': seq<nat>, base: nat, size: nat) {
    && |pages'| == |pages|
    && forall k :: 0 <= k < |pages| ==> if base <= k < base + size then pages'[k] != 0 else pages'[k] == pages[k]
  }

  ghost predicate Cleared(pages: seq<nat>, pages': seq<nat>, base: nat, size: nat) {
    && |pages'| == |pages|
    && forall k :: 0 <= k < |pages| ==> if base <= k < base + size then pages'[k] == 0 else pages'[k] == pages[k]
  }

  /** The frames of the run were taken from its last page down, each time the least one free. */
  ghost predicate Descending(pages: seq<nat>, base: nat, size: nat) {
    base + size <= |pages| && forall k :: base <= k < base + size - 1 ==> pages[k] > pages[k + 1]
  }

  lemma DescendingStep(pages: seq<nat>, pages': seq<nat>, i: nat, n: nat)
    requires i + 1 + n <= |pages| && Descending(pages, i + 1, n) && pages' == pages[i := if i < |pages'| then pages'[i] else 0]
    requires n > 0 ==> i < |pages'| && pages'[i] > pages[i + 1]
    ensures Descending(pages', i, n + 1)
  {
  }

  lemma ZeroFrame(a: nat)
    requires a % PAGE_SIZE == 0 && a != 0
    ensures a / PAGE_SIZE != 0
  {
  }

  lemma FramesOfNone(pages: seq<nat>, at: nat)
    requires at <= |pages|
    ensures FramesOf(pages, at, at) == {}
  {
  }

  lemma FramesOfStep(pages: seq<nat>, pages': seq<nat>, i: nat, hi: nat)
    requires i < hi <= |pages| && pages' == pages[i := if i < |pages'| then pages'[i] else 0]
    ensures |pages'| == |pages| && FramesOf(pages', i, hi) == FramesOf(pages, i + 1, hi) + {pages'[i] / PAGE_SIZE}
  {
    forall k | i + 1 <= k < hi ensures pages'[k] == pages[k] {
    }
    forall f | f in FramesOf(pages, i + 1, hi) ensures f in FramesOf(pages', i, hi) {
      var k :| i + 1 <= k < hi && f == pages[k] / PAGE_SIZE;
      assert pages'[k] / PAGE_SIZE == f;
    }
    forall f | f in FramesOf(pages', i, hi) ensures f in FramesOf(pages, i + 1, hi) + {pages'[i] / PAGE_SIZE} {
      var k :| i <= k < hi && f == pages'[k] / PAGE_SIZE;
      assert k > i ==> pages[k] / PAGE_SIZE == f;
    }
  }

  lemma FramesOfEnd(pages: seq<nat>, lo: nat, i: nat)
    requires lo <= i < |pages|
    ensures FramesOf(pages, lo, i + 1) == FramesOf(pages, lo, i) + {pages[i] / PAGE_SIZE}
  {
  }

  lemma FirstIsFree(pages: seq<nat>, hi: nat, n: nat)
    requires n <= hi <= |pages| && IsFirst(FreeCells(pages), Anywhere(), 0, hi, hi - n, n)
    ensures forall k :: hi - n <= k < hi ==> pages[k] == 0
  {
    forall k | hi - n <= k < hi ensures pages[k] == 0 {
      assert k in FreeCells(pages);
    }
  }

  lemma FirstRunIsFree(pages: seq<nat>, hi: nat, base: nat, n: nat)
    requires IsFirst(FreeCells(pages), Anywhere(), 0, hi, base, n) && hi <= |pages|
    ensures forall k :: base <= k < base + n ==> pages[k] == 0
  {
    forall k | base <= k < base + n ensures pages[k] == 0 {
      assert k in FreeCells(pages);
    }
  }

  lemma AgreesAt(mem: Memory, tree: Tree, used: set<nat>, kernel: nat, pages: seq<nat>, i: nat)
    requires Agrees(mem, tree, used, kernel, pages) && i < HEAP_PAGES
    ensures |pages| == HEAP_PAGES && EntryAgrees(mem, tree, used, kernel, pages[i], i)
  {
  }
}

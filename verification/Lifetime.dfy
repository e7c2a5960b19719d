/** Ranges of pages with frames of their own, and what is left in the frame bitmap when the
    space that held them is destroyed. */
module Lifetime {
  import opened Common
  import opened FirstFit
  import opened Physical
  import opened PageTables
  import opened Mmu
  import opened AddressSpace

  /** Between mem and mem', pages page, page+1, ... of the space got the frames fs. */
  ghost predicate MapsRange(mem: Memory, mem': Memory, root: nat, page: nat, fs: seq<nat>, flags: Flags) {
    forall q: nat :: q < PAGES ==>
      Translate(mem', root, q) ==
      if page <= q < page + |fs| then Some(Leaf(fs[q - page], flags)) else Translate(mem, root, q)
  }

  lemma MapsRangeStep(mem0: Memory, mem: Memory, tree: Tree, mem': Memory, root: nat, page: nat, fs: seq<nat>, f: nat, flags: Flags)
    requires MapsRange(mem0, mem, root, page, fs, flags) && IsRoot(tree, root)
    requires Updates(mem, tree, mem', root, page + |fs|, Leaf(f, flags))
    ensures MapsRange(mem0, mem', root, page, fs + [f], flags)
  {
    hide Walk;
    forall q: nat | q < PAGES
      ensures Translate(mem', root, q) ==
        if page <= q < page + |fs + [f]| then Some(Leaf((fs + [f])[q - page], flags)) else Translate(mem0, root, q)
    {
      assert IsRoot(tree, root);
      assert SamePath(mem, root, root, page + |fs|);
    }
  }

  lemma MapsRangeStart(mem: Memory, tree: Tree, mem': Memory, tree': Tree, space: Option<nat>, root: nat, page: nat, flags: Flags)
    requires Grows(mem, tree, mem', tree', space) && IsRoot(tree, root)
    ensures MapsRange(mem, mem', root, page, [], flags)
  {
    hide Walk, SamePath, OwnsData, WellFormed;
  }

  ghost predicate Distinct(fs: seq<nat>) {
    forall i, j :: 0 <= i < j < |fs| ==> fs[i] != fs[j]
  }

  /** The addresses for which tables are linked for the program. */
  predicate Below64TiB(page: nat, size: nat) {
    page + size <= 0x4000_0000_0000 / 4096
  }

  lemma ForProgram(page: nat, size: nat, i: nat)
    requires Below64TiB(page, size) && i < size
    ensures Index(page + i, 4) < 128
  {
  }

  /** The program's way to the pages is as open as it was where their tables were there before, and closed
      where tables had to be made. */
  ghost predicate OpenIfTabled(mem: Memory, mem': Memory, root: nat, page: nat, size: nat) {
    forall p: nat :: page <= p < page + size ==>
      (Open(mem', root, 4, p) <==> Open(mem, root, 4, p) && Slot(mem, root, 4, p).Some?)
  }

  lemma SearchedThenMapped(mem0: Memory, tree0: Tree, mem1: Memory, tree1: Tree, mem2: Memory, root: nat, page: nat, size: nat)
    requires Doors(mem0, tree0, mem1, false) && Doors(mem1, tree1, mem2, true) && IsRoot(tree0, root) && IsRoot(tree1, root)
    requires HasTables(mem1, root, page, size)
    ensures OpenIfTabled(mem0, mem2, root, page, size)
  {
    hide Open, Slot;
    forall p: nat | page <= p < page + size
      ensures Open(mem2, root, 4, p) <==> Open(mem0, root, 4, p) && Slot(mem0, root, 4, p).Some?
    {
      DoorsAt(mem0, tree0, mem1, false, root, p);
      DoorsAt(mem1, tree1, mem2, true, root, p);
    }
  }

  /** `Memory::getFreePages` for user pages: the least free run, each page with a new frame. */
  method GetUserPages(m: Mmu, size: nat, flags: Flags, root: nat) returns (r: Search, ghost fs: seq<nat>)
    requires Owner(m, root)
    modifies m`memory, m`tree, m.frames.bytes
    ensures m.Valid()
    ensures r.OutOfFrames? ==> m.OutOfFrames()
    ensures r.OutOfAddresses? && size > 0 ==> NoRun(FreePages(old(m.memory), root), Anywhere(), SearchFrom(true, 0), SearchEnd(true, 0), size)
    ensures r.Found? ==>
      && size > 0 && Owner(m, root) && Rest(m, root) == old(Rest(m, root))
      && IsFirst(FreePages(old(m.memory), root), Anywhere(), SearchFrom(true, 0), SearchEnd(true, 0), r.page, size)
      && |fs| == size && Distinct(fs) && (forall f :: f in fs ==> f !in old(m.frames.Used()))
      && MapsRange(old(m.memory), m.memory, root, r.page, fs, flags)
    ensures r.Found? ==> LeastUserRun(old(m.memory), root, r.page, size) && OpenIfTabled(old(m.memory), m.memory, root, r.page, size)
  {
    hide UsedFrames, WellFormed, OwnsData, SpaceFrames, Updates, HeldFrame, Grows, MapsRange, IsFirst, NoRun, Doors, HasTables, AllUnmapped, OpenIfTabled;
    ghost var mem0, tree0 := m.memory, m.tree;
    fs := [];
    UserDirectory(mem0, tree0, root);
    r := FindFreePages(m, size, true, root);
    if !r.Found? { return; }
    RootsKept(mem0, tree0, m.memory, m.tree, Some(root));
    GrowsOwnership(mem0, tree0, m.memory, m.tree, Some(root), root, 0);
    SpaceAfterGrowth(mem0, tree0, m.memory, m.tree, Some(root), root);
    SpaceInTree(tree0, root);
    assert Rest(m, root) == old(Rest(m, root));
    MapsRangeStart(mem0, tree0, m.memory, m.tree, Some(root), root, r.page, flags);
    ghost var searched, tables := m.memory, m.tree;
    DoorsSelf(searched, tables, true);
    for i := 0 to size
      invariant Owner(m, root) && Rest(m, root) == old(Rest(m, root))
      invariant |fs| == i && Distinct(fs) && (forall f :: f in fs ==> f !in old(m.frames.Used()) && f in m.frames.Used())
      invariant old(m.frames.Used()) <= m.frames.Used()
      invariant MapsRange(mem0, m.memory, root, r.page, fs, flags)
      invariant Doors(searched, tables, m.memory, true) && forall s :: IsRoot(m.tree, s) <==> IsRoot(tables, s)
    {
      FirstIsFree(mem0, root, r.page, size, i, true, 0);
      NothingHeld(mem0, m.memory, root, r.page, fs, flags);
      ghost var mem1, tree1 := m.memory, m.tree;
      var ok;
      ghost var f;
      ok, f := MapFresh(m, r.page + i, flags, root);
      if !ok { return OutOfFrames, fs; }
      MapsRangeStep(mem0, mem1, tree1, m.memory, root, r.page, fs, f, flags);
      ForProgram(r.page, size, i);
      DoorsCompose(searched, tables, mem1, tree1, m.memory, true);
      fs := fs + [f];
    }
    SearchedThenMapped(mem0, tree0, searched, tables, m.memory, root, r.page, size);
  }

  lemma SpaceInTree(tree: Tree, root: nat)
    ensures SpaceFrames(tree, root) <= tree.Keys
  {
  }

  lemma FirstIsFree(mem: Memory, root: nat, page: nat, size: nat, i: nat, user: bool, i3: nat)
    requires i3 < 512 && IsFirst(FreePages(mem, root), Anywhere(), SearchFrom(user, i3), SearchEnd(user, i3), page, size) && i < size
    ensures page + i < PAGES && Translate(mem, root, page + i).None? && Clear(mem, root, 4, page + i)
    ensures user ==> page + i < LOWER_PAGES
  {
    assert page + i in FreePages(mem, root);
  }

  lemma NothingHeld(mem: Memory, mem': Memory, root: nat, page: nat, fs: seq<nat>, flags: Flags)
    requires MapsRange(mem, mem', root, page, fs, flags)
    requires page + |fs| < PAGES && Translate(mem, root, page + |fs|).None?
    ensures HeldFrame(mem', root, page + |fs|) == {}
  {
  }

  ghost function Frames(base: nat, n: nat): seq<nat> {
    seq(n, i => base + i)
  }

  /** The frames held by the first n pages of a range. */
  ghost function HeldIn(mem: Memory, root: nat, page: nat, n: nat): set<nat> {
    if n == 0 then {} else HeldIn(mem, root, page, n - 1) + HeldFrame(mem, root, page + n - 1)
  }

  /** No frame is left for a table, or no run of frames is long enough. */
  ghost predicate FramesShort(m: Mmu, size: nat)
    reads m, m.frames.bytes
  {
    m.OutOfFrames() || NoRun(Free(m.frames.bytes[..]), Aligned(PAGE_SIZE), 0, 8 * m.frames.bytes.Length, size)
  }

  /** `Memory::allocSpace`: one contiguous run of frames for the whole range. */
  method AllocSpace(m: Mmu, page: nat, size: nat, flags: Flags, root: nat) returns (r: Option<nat>)
    requires Owner(m, root) && size > 0 && page + size <= LOWER_PAGES
    modifies m`memory, m`tree, m.frames.bytes
    ensures m.Valid() && |m.memory| == old(|m.memory|)
    ensures r.Some? ==> Owner(m, root) && r.value + size <= |m.memory|
    ensures r.Some? ==> old(m.frames.Used()) !! Run(r.value, size) && Run(r.value, size) <= m.frames.Used()
    ensures r.Some? ==> MapsRange(old(m.memory), m.memory, root, page, Frames(r.value, size), flags)
    ensures r.Some? ==> Rest(m, root) == old(Rest(m, root)) + HeldIn(old(m.memory), root, page, size)
    ensures old(Rest(m, root)) !! HeldIn(old(m.memory), root, page, size)
    ensures r.Some? || FramesShort(m, size)
    ensures r.Some? ==> forall f :: f in Run(r.value, size) ==> NotTable(m.tree, f)
    ensures DataKept(old(m.memory), old(m.tree), old(m.frames.Used()), m.memory, m.tree)
    ensures r.Some? ==> (forall s :: IsRoot(m.tree, s) <==> IsRoot(old(m.tree), s)) && (Below64TiB(page, size) ==> Doors(old(m.memory), old(m.tree), m.memory, true))
  {
    hide UsedFrames, Get, WellFormed, OwnsData, SpaceFrames, HeldFrame, MapsRange, DataKept, InRun, HeldIn, NoRun, Free, Doors, Below64TiB;
    ghost var mem0, tree0, used0 := m.memory, m.tree, m.frames.Used();
    HeldInIsOwned(mem0, tree0, root, page, size);
    DataKeptSelf(mem0, tree0, used0);
    var a := m.frames.GetFreePages(size, PAGE_SIZE);
    if a.None? { return None; }
    var base := a.value / PAGE_SIZE;
    ghost var used1 := m.frames.Used();
    SpaceInTree(tree0, root);
    var ok := MapRun(m, base, page, size, flags, root);
    DataKeptFewer(mem0, tree0, used0, used1, m.memory, m.tree);
    if !ok { return None; }
    RunNotTables(mem0, tree0, used1, m.memory, m.tree, base, size);
    r := Some(base);
  }

  /** The loop of allocSpace: page + i to frame base + i. */
  method MapRun(m: Mmu, base: nat, page: nat, size: nat, flags: Flags, root: nat) returns (ok: bool)
    requires Owner(m, root) && page + size <= LOWER_PAGES && base + size <= |m.memory|
    requires Run(base, size) <= m.frames.Used() && m.tree.Keys !! Run(base, size)
    modifies m`memory, m`tree, m.frames.bytes
    ensures m.Valid() && |m.memory| == old(|m.memory|) && old(m.frames.Used()) <= m.frames.Used()
    ensures !ok ==> m.OutOfFrames()
    ensures ok ==> Owner(m, root) && MapsRange(old(m.memory), m.memory, root, page, Frames(base, size), flags)
    ensures ok ==> Rest(m, root) == old(Rest(m, root)) - Run(base, size) + HeldIn(old(m.memory), root, page, size)
    ensures DataKept(old(m.memory), old(m.tree), old(m.frames.Used()), m.memory, m.tree)
    ensures ok ==> (forall s :: IsRoot(m.tree, s) <==> IsRoot(old(m.tree), s)) && (Below64TiB(page, size) ==> Doors(old(m.memory), old(m.tree), m.memory, true))
  {
    hide UsedFrames, Get, WellFormed, OwnsData, SpaceFrames, Updates, HeldFrame, MapsRange, DataKept, Run, HeldIn, Frames, Doors, Below64TiB;
    DoorsSelf(m.memory, m.tree, true);
    ghost var mem0, tree0, used0 := m.memory, m.tree, m.frames.Used();
    ghost var rest0 := Rest(m, root) - Run(base, size);
    HeldInIsOwned(mem0, tree0, root, page, size);
    SpaceInTree(tree0, root);
    DataKeptSelf(mem0, tree0, used0);
    MapsRangeSelf(mem0, root, page, flags);
    HeldInStep(mem0, root, page, 0);
    var i := 0;
    while i < size
      invariant 0 <= i <= size
      invariant Owner(m, root) && |m.memory| == |mem0|
      invariant used0 <= m.frames.Used()
      invariant m.tree.Keys !! Run(base + i, size - i)
      invariant Rest(m, root) == rest0 + HeldIn(mem0, root, page, i) + Run(base + i, size - i)
      invariant MapsRange(mem0, m.memory, root, page, Frames(base, i), flags)
      invariant DataKept(mem0, tree0, used0, m.memory, m.tree)
      invariant (forall s :: IsRoot(m.tree, s) <==> IsRoot(tree0, s)) && (Below64TiB(page, size) ==> Doors(mem0, tree0, m.memory, true))
    {
      ghost var mem1, tree1, used2 := m.memory, m.tree, m.frames.Used();
      RunStep(base + i, size - i);
      RunTail(base, size, i);
      ok := MapOwned(m, base + i, page + i, flags, root);
      DataKeptCompose(mem0, tree0, used0, mem1, tree1, used2, m.memory, m.tree);
      if !ok { return; }
      if Below64TiB(page, size) {
        ForProgram(page, size, i);
        DoorsCompose(mem0, tree0, mem1, tree1, m.memory, true);
      }
      FramesStep(base, i);
      MapsRangeStep(mem0, mem1, tree1, m.memory, root, page, Frames(base, i), base + i, flags);
      HeldUnchanged(mem0, mem1, root, page, Frames(base, i), flags);
      HeldInStep(mem0, root, page, i);
      HeldInGrows(mem0, root, page, i + 1, size);
      i := i + 1;
    }
    RunEmpty(base + size);
    ok := true;
  }

  lemma {:induction false} HeldInIsOwned(mem: Memory, tree: Tree, root: nat, page: nat, n: nat)
    requires WellFormed(mem, tree) && IsRoot(tree, root) && OwnsData(mem, tree, root) && page + n <= LOWER_PAGES
    ensures HeldIn(mem, root, page, n) <= SpaceFrames(tree, root) <= tree.Keys
  {
    hide WellFormed, OwnsData, HeldFrame, Lower;
    if n > 0 {
      HeldInIsOwned(mem, tree, root, page, n - 1);
      LowerPage(page + n - 1);
      HeldIsOld(mem, tree, root, page + n - 1);
    }
  }

  lemma HeldInStep(mem: Memory, root: nat, page: nat, n: nat)
    ensures HeldIn(mem, root, page, 0) == {}
    ensures HeldIn(mem, root, page, n + 1) == HeldIn(mem, root, page, n) + HeldFrame(mem, root, page + n)
  {
    hide HeldFrame;
  }

  lemma {:induction false} HeldInGrows(mem: Memory, root: nat, page: nat, k: nat, n: nat)
    requires k <= n
    ensures HeldIn(mem, root, page, k) <= HeldIn(mem, root, page, n)
  {
    hide HeldFrame;
    if k < n { HeldInGrows(mem, root, page, k, n - 1); }
  }

  lemma HeldUnchanged(mem: Memory, mem': Memory, root: nat, page: nat, fs: seq<nat>, flags: Flags)
    requires MapsRange(mem, mem', root, page, fs, flags) && page + |fs| < PAGES
    ensures HeldFrame(mem', root, page + |fs|) == HeldFrame(mem, root, page + |fs|)
  {
    hide Walk;
    assert Translate(mem', root, page + |fs|) == Translate(mem, root, page + |fs|);
  }

  lemma MapsRangeSelf(mem: Memory, root: nat, page: nat, flags: Flags)
    ensures MapsRange(mem, mem, root, page, Frames(0, 0), flags)
    ensures forall b :: Frames(b, 0) == Frames(0, 0)
  {
    hide Walk;
  }

  lemma DataKeptSelf(mem: Memory, tree: Tree, used: set<nat>)
    ensures DataKept(mem, tree, used, mem, tree)
    ensures forall more :: DataKept(mem, tree, more, mem, tree)
  {
  }

  lemma DataKeptFewer(mem: Memory, tree: Tree, used: set<nat>, more: set<nat>, mem': Memory, tree': Tree)
    requires DataKept(mem, tree, more, mem', tree') && used <= more
    ensures DataKept(mem, tree, used, mem', tree')
  {
  }

  lemma FramesStep(base: nat, i: nat)
    ensures Frames(base, i) + [base + i] == Frames(base, i + 1) && |Frames(base, i)| == i
  {
  }

  lemma RunStep(a: nat, n: nat)
    requires n > 0
    ensures Run(a, n) == {a} + Run(a + 1, n - 1) && a !in Run(a + 1, n - 1)
  {
  }

  lemma RunTail(a: nat, n: nat, i: nat)
    requires i <= n
    ensures Run(a + i, n - i) <= Run(a, n)
  {
  }

  lemma RunEmpty(a: nat)
    ensures Run(a, 0) == {}
  {
  }

  lemma RunNotTables(mem: Memory, tree: Tree, used: set<nat>, mem': Memory, tree': Tree, base: nat, size: nat)
    requires DataKept(mem, tree, used, mem', tree') && Run(base, size) <= used && tree.Keys !! Run(base, size)
    requires base + size <= |mem|
    ensures forall f :: f in Run(base, size) ==> NotTable(tree', f)
  {
  }

  /** Between mem and mem', the first n pages from `page` were unmapped. */
  ghost predicate UnmapsRange(mem: Memory, mem': Memory, root: nat, page: nat, n: nat) {
    forall q: nat :: q < PAGES ==>
      Translate(mem', root, q) == if page <= q < page + n then None else Translate(mem, root, q)
  }

  lemma UnmapsRangeStep(mem0: Memory, mem: Memory, tree: Tree, mem': Memory, root: nat, page: nat, n: nat)
    requires UnmapsRange(mem0, mem, root, page, n) && IsRoot(tree, root)
    requires Updates(mem, tree, mem', root, page + n, ABSENT)
    ensures UnmapsRange(mem0, mem', root, page, n + 1)
  {
    hide Walk;
    forall q: nat | q < PAGES
      ensures Translate(mem', root, q) == if page <= q < page + n + 1 then None else Translate(mem0, root, q)
    {
      assert IsRoot(tree, root);
      assert SamePath(mem, root, root, page + n);
    }
  }

  lemma UnmapsNothing(mem: Memory, root: nat, page: nat)
    ensures UnmapsRange(mem, mem, root, page, 0)
  {
    hide Walk;
  }

  lemma NotYetUnmapped(mem: Memory, mem': Memory, root: nat, page: nat, n: nat)
    requires UnmapsRange(mem, mem', root, page, n) && page + n < PAGES
    ensures Translate(mem', root, page + n) == Translate(mem, root, page + n)
  {
    hide Walk;
  }

  /** Unmaps a range of the lower half and frees its frames; false is the panic of the source
      on the first page that is not mapped. */
  method ReleasePages(m: Mmu, page: nat, size: nat, root: nat) returns (ok: bool)
    requires Owner(m, root) && page + size <= LOWER_PAGES
    modifies m`memory, m`tree, m.frames.bytes
    ensures Owner(m, root) && Rest(m, root) == old(Rest(m, root))
    ensures ok <==> forall q: nat :: page <= q < page + size ==> Translate(old(m.memory), root, q).Some?
    ensures ok ==> UnmapsRange(old(m.memory), m.memory, root, page, size)
  {
    hide UsedFrames, WellFormed, OwnsData, SpaceFrames, Updates, HeldFrame, UnmapsRange, Walk, Lower;
    ghost var mem0, rest0 := m.memory, Rest(m, root);
    UnmapsNothing(mem0, root, page);
    for i := 0 to size
      invariant Owner(m, root) && Rest(m, root) == rest0
      invariant UnmapsRange(mem0, m.memory, root, page, i)
      invariant forall q: nat :: page <= q < page + i ==> Translate(mem0, root, q).Some?
    {
      ghost var mem1, tree1 := m.memory, m.tree;
      NotYetUnmapped(mem0, mem1, root, page, i);
      LowerPage(page + i);
      HeldIsOld(mem1, tree1, root, page + i);
      HeldIs(mem1, root, page + i);
      LowerIsClear(mem1, tree1, root, 4, page + i);
      var f := m.UnmapPage(page + i, root);
      if f.None? { return false; }
      UnmapsRangeStep(mem0, mem1, tree1, m.memory, root, page, i);
      FrameInMemory(mem1, tree1, f.value);
      SpaceInTree(m.tree, root);
      m.FreeFrame(f.value);
    }
    ok := true;
  }

  lemma HeldIs(mem: Memory, root: nat, page: nat)
    ensures Translate(mem, root, page).Some? ==> HeldFrame(mem, root, page) == {Translate(mem, root, page).value.address}
  {
  }

  // ----- a space from creation to destruction -----

  datatype Op =
    | Map(page: nat, flags: Flags)
    | Obtain(size: nat, flags: Flags)
    | Alloc(page: nat, size: nat, flags: Flags)
    | Release(page: nat, size: nat)

  predicate InLowerHalf(op: Op) {
    match op
    case Map(page, _) => page < LOWER_PAGES
    case Obtain(_, _) => true
    case Alloc(page, size, _) => size > 0 && page + size <= LOWER_PAGES
    case Release(page, size) => page + size <= LOWER_PAGES
  }

  ghost function FreeIn(mapped: set<nat>): set<int> {
    set p: int | 0 <= p < LOWER_PAGES && p !in mapped
  }

  /** a is where getFreePages finds its pages. */
  ghost predicate FoundAt(mapped: set<nat>, size: nat, a: nat) {
    IsFirst(FreeIn(mapped), Anywhere(), SearchFrom(true, 0), SearchEnd(true, 0), a, size)
  }

  ghost function FirstFree(mapped: set<nat>, size: nat): nat {
    if exists a: nat :: FoundAt(mapped, size, a) then var a: nat :| FoundAt(mapped, size, a); a else 0
  }

  lemma FoundIs(mapped: set<nat>, size: nat, a: nat)
    requires FoundAt(mapped, size, a)
    ensures FirstFree(mapped, size) == a
  {
    var b := FirstFree(mapped, size);
    assert FoundAt(mapped, size, b);
    assert !(a < b) && !(b < a);
  }

  /** The search sees the lower half only. */
  lemma SameSearch(mem: Memory, tree: Tree, root: nat, mapped: set<nat>, size: nat)
    requires WellFormed(mem, tree) && IsRoot(tree, root) && MappedPages(mem, root, mapped)
    ensures forall a: nat :: IsFirst(FreePages(mem, root), Anywhere(), SearchFrom(true, 0), SearchEnd(true, 0), a, size) ==> FoundAt(mapped, size, a)
    ensures NoRun(FreePages(mem, root), Anywhere(), SearchFrom(true, 0), SearchEnd(true, 0), size) ==>
              NoRun(FreeIn(mapped), Anywhere(), SearchFrom(true, 0), SearchEnd(true, 0), size)
  {
    hide Walk, MappedPages, IsFirst, NoRun;
    forall b: int, n: int | 0 <= b && b + n <= SearchEnd(true, 0)
      ensures IsRun(FreePages(mem, root), Anywhere(), b, n) <==> IsRun(FreeIn(mapped), Anywhere(), b, n)
    {
      SameRun(mem, tree, root, mapped, b, n);
    }
    forall a: nat | IsFirst(FreePages(mem, root), Anywhere(), SearchFrom(true, 0), SearchEnd(true, 0), a, size) ensures FoundAt(mapped, size, a) {
      SameIsFirst(FreePages(mem, root), FreeIn(mapped), a, size);
    }
    if NoRun(FreePages(mem, root), Anywhere(), SearchFrom(true, 0), SearchEnd(true, 0), size) {
      SameNoRun(FreePages(mem, root), FreeIn(mapped), size);
    }
  }

  lemma SameRun(mem: Memory, tree: Tree, root: nat, mapped: set<nat>, b: int, n: int)
    requires WellFormed(mem, tree) && IsRoot(tree, root) && MappedPages(mem, root, mapped) && 0 <= b && b + n <= SearchEnd(true, 0)
    ensures IsRun(FreePages(mem, root), Anywhere(), b, n) <==> IsRun(FreeIn(mapped), Anywhere(), b, n)
  {
    hide Walk;
    forall k | b <= k < b + n ensures k in FreePages(mem, root) <==> k in FreeIn(mapped) {
      assert 0 <= k < LOWER_PAGES;
      LowerPage(k);
      LowerIsClear(mem, tree, root, 4, k);
    }
  }

  lemma SameIsFirst(free: set<int>, free': set<int>, a: nat, size: nat)
    requires IsFirst(free, Anywhere(), SearchFrom(true, 0), SearchEnd(true, 0), a, size)
    requires forall b: int, n: int :: 0 <= b && b + n <= SearchEnd(true, 0) ==> (IsRun(free, Anywhere(), b, n) <==> IsRun(free', Anywhere(), b, n))
    ensures IsFirst(free', Anywhere(), SearchFrom(true, 0), SearchEnd(true, 0), a, size)
  {
    hide IsRun, SearchFrom, SearchEnd;
  }

  lemma SameNoRun(free: set<int>, free': set<int>, size: nat)
    requires NoRun(free, Anywhere(), SearchFrom(true, 0), SearchEnd(true, 0), size)
    requires forall b: int, n: int :: 0 <= b && b + n <= SearchEnd(true, 0) ==> (IsRun(free, Anywhere(), b, n) <==> IsRun(free', Anywhere(), b, n))
    ensures NoRun(free', Anywhere(), SearchFrom(true, 0), SearchEnd(true, 0), size)
  {
    hide IsRun, SearchFrom, SearchEnd;
  }

  /** The lower-half pages mapped after an operation. */
  ghost function MappedAfter(mapped: set<nat>, op: Op): set<nat> {
    match op
    case Map(page, _) => mapped + {page}
    case Obtain(size, _) => mapped + Run(FirstFree(mapped, size), size)
    case Alloc(page, size, _) => mapped + Run(page, size)
    case Release(page, size) => mapped - Run(page, size)
  }

  /** No operation of the script maps a page that is mapped at that time. */
  ghost predicate NeverOverlaps(script: seq<Op>, mapped: set<nat>) {
    script != [] ==> MapsOnlyFree(script[0], mapped) && NeverOverlaps(script[1..], MappedAfter(mapped, script[0]))
  }

  /** The shortest script that maps over a mapped page: one page mapped twice. */
  lemma MapTwiceOverlaps(page: nat, flags: Flags)
    ensures !NeverOverlaps([Map(page, flags), Map(page, flags)], {})
  {
    var script := [Map(page, flags), Map(page, flags)];
    assert script[1..] == [Map(page, flags)];
    assert page in MappedAfter({}, script[0]);
    assert !NeverOverlaps(script[1..], MappedAfter({}, script[0]));
  }

  ghost predicate MapsOnlyFree(op: Op, mapped: set<nat>) {
    match op
    case Map(page, _) => page !in mapped
    case Obtain(_, _) => true
    case Alloc(page, size, _) => mapped !! Run(page, size)
    case Release(_, _) => true
  }

  ghost predicate MappedPages(mem: Memory, root: nat, mapped: set<nat>) {
    forall p: nat :: p < LOWER_PAGES ==> (p in mapped <==> Translate(mem, root, p).Some?)
  }

  /** The operation finds no frames. */
  ghost predicate Panics(m: Mmu, op: Op)
    reads m, m.frames.bytes
  {
    match op
    case Map(_, _) => m.OutOfFrames()
    case Obtain(_, _) => m.OutOfFrames()
    case Alloc(_, size, _) => FramesShort(m, size)
    case Release(_, _) => false
  }

  /** The pages allow the operation: a release is of mapped pages, a search finds its run. */
  ghost predicate Possible(op: Op, mapped: set<nat>) {
    match op
    case Release(page, size) => Run(page, size) <= mapped
    case Obtain(size, _) => size > 0 && !NoRun(FreeIn(mapped), Anywhere(), SearchFrom(true, 0), SearchEnd(true, 0), size)
    case _ => true
  }

  /** Every operation of the script is possible at its time. */
  ghost predicate AlwaysPossible(script: seq<Op>, mapped: set<nat>) {
    script != [] ==> Possible(script[0], mapped) && AlwaysPossible(script[1..], MappedAfter(mapped, script[0]))
  }

  /** The range is mapped with the flags, and every other page is as it was. */
  ghost predicate RangeMapped(mem: Memory, mem': Memory, root: nat, page: nat, size: nat, flags: Flags) {
    forall q: nat :: q < PAGES ==>
      if page <= q < page + size then Translate(mem', root, q).Some? && Translate(mem', root, q).value.flags == flags
      else Translate(mem', root, q) == Translate(mem, root, q)
  }

  /** What an operation does to the pages of its space. */
  ghost predicate Did(mem: Memory, mem': Memory, root: nat, op: Op) {
    match op
    case Map(page, flags) => RangeMapped(mem, mem', root, page, 1, flags)
    case Obtain(size, flags) => exists a: nat :: LeastUserRun(mem, root, a, size) && RangeMapped(mem, mem', root, a, size, flags)
    case Alloc(page, size, flags) => RangeMapped(mem, mem', root, page, size, flags)
    case Release(page, size) =>
      forall q: nat :: q < PAGES ==> Translate(mem', root, q) == if page <= q < page + size then None else Translate(mem, root, q)
  }

  lemma RangeIsMapped(mem: Memory, mem': Memory, root: nat, page: nat, fs: seq<nat>, flags: Flags)
    requires MapsRange(mem, mem', root, page, fs, flags)
    ensures RangeMapped(mem, mem', root, page, |fs|, flags)
  {
    hide Walk;
  }

  lemma UpdateIsMapped(mem: Memory, tree: Tree, mem': Memory, root: nat, page: nat, f: nat, flags: Flags)
    requires Updates(mem, tree, mem', root, page, Leaf(f, flags)) && IsRoot(tree, root)
    ensures RangeMapped(mem, mem', root, page, 1, flags)
  {
    hide Walk;
    assert SamePath(mem, root, root, page);
  }

  /** One operation; false where the source panics. Frames leave the accounts exactly when the
      operation maps over mapped pages. */
  method Step(m: Mmu, op: Op, root: nat, ghost mapped: set<nat>) returns (ok: bool)
    requires Owner(m, root) && InLowerHalf(op) && MappedPages(m.memory, root, mapped)
    modifies m`memory, m`tree, m.frames.bytes
    ensures ok ==> Owner(m, root) && MappedPages(m.memory, root, MappedAfter(mapped, op))
    ensures ok ==> Did(old(m.memory), m.memory, root, op)
    ensures ok ==> old(Rest(m, root)) <= Rest(m, root)
    ensures ok ==> (Rest(m, root) == old(Rest(m, root)) <==> MapsOnlyFree(op, mapped))
    ensures ok ==> Possible(op, mapped)
    ensures !ok ==> Panics(m, op) || !Possible(op, mapped)
  {
    hide UsedFrames, WellFormed, OwnsData, SpaceFrames, Updates, UnmapsRange, Walk, Lower, MapsRange, MappedPages, HeldFrame, HeldIn, DataKept, NoRun, FreeIn, IsFirst, RangeMapped, LeastUserRun, OpenIfTabled, Doors;
    ghost var mem0, tree0 := m.memory, m.tree;
    match op {
      case Map(page, flags) =>
        ghost var f;
        ok, f := MapFresh(m, page, flags, root);
        if ok {
          UpdateIsMapped(mem0, tree0, m.memory, root, page, f, flags);
          MappedByUpdate(mem0, tree0, m.memory, root, page, Leaf(f, flags), mapped);
          HeldIfMapped(mem0, root, page, mapped);
        }
      case Obtain(size, flags) =>
        var r;
        ghost var fs;
        r, fs := GetUserPages(m, size, flags, root);
        ok := r.Found?;
        SameSearch(mem0, tree0, root, mapped, size);
        if ok {
          FoundIs(mapped, size, r.page);
          RunThere(FreeIn(mapped), r.page, size);
          RangeIsMapped(mem0, m.memory, root, r.page, fs, flags);
          MappedByRange(mem0, m.memory, root, r.page, fs, flags, mapped);
        }
      case Alloc(page, size, flags) =>
        var r := AllocSpace(m, page, size, flags, root);
        ok := r.Some?;
        if ok {
          RangeIsMapped(mem0, m.memory, root, page, Frames(r.value, size), flags);
          MappedByRange(mem0, m.memory, root, page, Frames(r.value, size), flags, mapped);
          HeldInIfMapped(mem0, root, page, size, mapped);
        }
      case Release(page, size) =>
        ok := ReleasePages(m, page, size, root);
        AllMapped(mem0, root, page, size, mapped);
        if ok {
          UnmapsAre(mem0, m.memory, root, page, size);
          UnmappedByRange(mem0, m.memory, root, page, size, mapped);
        }
    }
  }

  lemma UnmapsAre(mem: Memory, mem': Memory, root: nat, page: nat, n: nat)
    requires UnmapsRange(mem, mem', root, page, n)
    ensures Did(mem, mem', root, Release(page, n))
  {
    hide Walk;
  }

  lemma RunThere(free: set<int>, a: nat, size: nat)
    requires IsFirst(free, Anywhere(), SearchFrom(true, 0), SearchEnd(true, 0), a, size)
    ensures !NoRun(free, Anywhere(), SearchFrom(true, 0), SearchEnd(true, 0), size) && a + size <= LOWER_PAGES
  {
    hide IsRun;
  }

  lemma AllMapped(mem: Memory, root: nat, page: nat, n: nat, mapped: set<nat>)
    requires MappedPages(mem, root, mapped) && page + n <= LOWER_PAGES
    ensures Run(page, n) <= mapped <==> forall q: nat :: page <= q < page + n ==> Translate(mem, root, q).Some?
  {
    hide Walk;
    if forall q: nat :: page <= q < page + n ==> Translate(mem, root, q).Some? {
      forall q | q in Run(page, n) ensures q in mapped {
        assert Translate(mem, root, q).Some?;
      }
    }
    if Run(page, n) <= mapped {
      forall q: nat | page <= q < page + n ensures Translate(mem, root, q).Some? {
        assert q in Run(page, n);
      }
    }
  }

  lemma MappedByUpdate(mem: Memory, tree: Tree, mem': Memory, root: nat, page: nat, e: Pml, mapped: set<nat>)
    requires IsRoot(tree, root) && page < LOWER_PAGES && e.present
    requires MappedPages(mem, root, mapped) && Updates(mem, tree, mem', root, page, e)
    ensures MappedPages(mem', root, mapped + {page})
  {
    hide Walk;
    assert SamePath(mem, root, root, page);
  }

  lemma MappedByRange(mem: Memory, mem': Memory, root: nat, page: nat, fs: seq<nat>, flags: Flags, mapped: set<nat>)
    requires page + |fs| <= LOWER_PAGES
    requires MappedPages(mem, root, mapped) && MapsRange(mem, mem', root, page, fs, flags)
    ensures MappedPages(mem', root, mapped + Run(page, |fs|))
  {
    hide Walk;
  }

  lemma UnmappedByRange(mem: Memory, mem': Memory, root: nat, page: nat, n: nat, mapped: set<nat>)
    requires MappedPages(mem, root, mapped) && UnmapsRange(mem, mem', root, page, n)
    ensures MappedPages(mem', root, mapped - Run(page, n))
  {
    hide Walk;
  }

  lemma HeldIfMapped(mem: Memory, root: nat, page: nat, mapped: set<nat>)
    requires MappedPages(mem, root, mapped) && page < LOWER_PAGES
    ensures HeldFrame(mem, root, page) == {} <==> page !in mapped
  {
    hide Walk;
  }

  lemma {:induction false} HeldInIfMapped(mem: Memory, root: nat, page: nat, n: nat, mapped: set<nat>)
    requires MappedPages(mem, root, mapped) && page + n <= LOWER_PAGES
    ensures HeldIn(mem, root, page, n) == {} <==> mapped !! Run(page, n)
  {
    hide MappedPages, HeldFrame;
    if n > 0 {
      HeldInIfMapped(mem, root, page, n - 1, mapped);
      HeldIfMapped(mem, root, page + n - 1, mapped);
      assert Run(page, n) == Run(page, n - 1) + {page + n - 1};
    } else {
      RunEmpty(page);
    }
  }

  /** A space lives through any script and is destroyed: when no step panics, the bitmap is
      byte for byte what it was before creation exactly if no step mapped over a mapped page;
      otherwise the frames mapped over stay in use. */
  method Live(m: Mmu, kernel: nat, script: seq<Op>) returns (ok: bool)
    requires m.Valid() && IsRoot(m.tree, kernel)
    requires forall i :: 0 <= i < |script| ==> InLowerHalf(script[i])
    modifies m`memory, m`tree, m.frames.bytes
    ensures ok ==> m.Valid() && old(m.frames.Used()) <= m.frames.Used()
    ensures ok ==> (m.frames.bytes[..] == old(m.frames.bytes[..]) <==> NeverOverlaps(script, {}))
    ensures ok ==> AlwaysPossible(script, {})
    ensures !ok ==> m.OutOfFrames() || (exists i :: 0 <= i < |script| && Panics(m, script[i])) || !AlwaysPossible(script, {})
  {
    hide UsedFrames, Get, WellFormed, OwnsData, SpaceFrames, MappedPages, MapsOnlyFree, Lower, Walk, Possible, Panics;
    ghost var used0 := m.frames.Used();
    var r := m.CreateAddressSpace(kernel);
    if r.None? { return false; }
    var root := r.value;
    ghost var mapped: set<nat> := {};
    NothingMapped(m.memory, root);
    ghost var clean := true;
    for i := 0 to |script|
      invariant Owner(m, root) && MappedPages(m.memory, root, mapped)
      invariant used0 <= Rest(m, root)
      invariant clean <==> Rest(m, root) == used0
      invariant NeverOverlaps(script, {}) <==> clean && NeverOverlaps(script[i..], mapped)
      invariant AlwaysPossible(script, {}) <==> AlwaysPossible(script[i..], mapped)
    {
      ghost var now := mapped;
      ok := Step(m, script[i], root, mapped);
      if !ok { return; }
      mapped := MappedAfter(mapped, script[i]);
      clean := clean && MapsOnlyFree(script[i], now);
      assert script[i..][1..] == script[i + 1..];
    }
    SpaceInTree(m.tree, root);
    m.DestroyAddressSpace(root);
    ok := true;
    if m.frames.Used() == used0 {
      UsedFramesDetermineBytes(m.frames.bytes[..], old(m.frames.bytes[..]));
    }
  }

  lemma NothingMapped(mem: Memory, root: nat)
    requires forall p: nat :: Lower(p) ==> Translate(mem, root, p).None?
    ensures MappedPages(mem, root, {})
  {
    hide Walk, Lower;
    forall p: nat | p < LOWER_PAGES ensures Translate(mem, root, p).None? {
      LowerPage(p);
    }
  }
}

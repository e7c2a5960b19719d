/** Ranges of pages in either half of a space, such as the kernel's stacks: frames of their own, but no
    space that owns them. */
module Ranges {
  import opened Common
  import opened FirstFit
  import opened Physical
  import opened PageTables
  import opened Mmu
  import opened AddressSpace
  import opened Lifetime

  /** Frames in use that are no tables and belong to no space. */
  ghost predicate Loose(m: Mmu, f: nat)
    reads m, m.frames.bytes
  {
    f < |m.memory| && f in m.frames.Used() && f !in m.tree
  }

  /** Of the frames in use, those of fs are new and loose, and the other new ones are tables. */
  ghost predicate Taken(used0: set<nat>, tree0: set<nat>, used: set<nat>, tree: set<nat>, n: nat, fs: seq<nat>) {
    && tree0 <= tree && used == used0 + (tree - tree0) + Members(fs) && Distinct(fs)
    && forall f :: f in fs ==> f !in used0 && f !in tree && f < n
  }

  ghost function Members(fs: seq<nat>): set<nat> {
    set f | f in fs
  }

  lemma TakenNothing(used0: set<nat>, tree0: set<nat>, used: set<nat>, tree: set<nat>, n: nat)
    requires tree0 <= tree && used == used0 + (tree - tree0)
    ensures Taken(used0, tree0, used, tree, n, [])
  {
  }

  lemma TakenStep(used0: set<nat>, tree0: set<nat>, used: set<nat>, tree: set<nat>, used': set<nat>, tree': set<nat>, n: nat, fs: seq<nat>, f: nat)
    requires Taken(used0, tree0, used, tree, n, fs) && tree <= tree' && used' == used + (tree' - tree) + {f}
    requires used !! (tree' - tree) && f !in used && f !in tree' && f < n
    ensures Taken(used0, tree0, used', tree', n, fs + [f])
  {
    assert Members(fs + [f]) == Members(fs) + {f};
    forall x | x in fs ensures x in used {
      assert x in Members(fs);
    }
  }

  /** The pages of the range are new for the spaces on the same path only; every other page of every space
      translates as before. */
  ghost predicate Elsewhere(mem: Memory, tree: Tree, mem': Memory, root: nat, page: nat, n: nat) {
    forall s, q: nat :: IsRoot(tree, s) && q < PAGES ==>
      Translate(mem', s, q) == if page <= q < page + n && SamePath(mem, root, s, q) then Translate(mem', root, q) else Translate(mem, s, q)
  }

  lemma ElsewhereStart(mem: Memory, tree: Tree, mem': Memory, tree': Tree, space: Option<nat>, root: nat, page: nat)
    requires Grows(mem, tree, mem', tree', space)
    ensures Elsewhere(mem, tree, mem', root, page, 0)
  {
    hide Walk, SamePath, OwnsData, WellFormed;
  }

  lemma ElsewhereStep(mem0: Memory, tree0: Tree, mem: Memory, tree: Tree, mem': Memory, root: nat, page: nat, n: nat, e: Pml)
    requires Elsewhere(mem0, tree0, mem, root, page, n) && PathsKept(mem0, tree0, mem) && IsRoot(tree0, root)
    requires (forall s :: IsRoot(tree, s) <==> IsRoot(tree0, s)) && Updates(mem, tree, mem', root, page + n, e)
    ensures Elsewhere(mem0, tree0, mem', root, page, n + 1)
  {
    hide Walk, IsRoot;
    var n' := n + 1;
    forall s, q: nat | IsRoot(tree0, s) && q < PAGES
      ensures Translate(mem', s, q) == if page <= q < page + n' && SamePath(mem0, root, s, q) then Translate(mem', root, q) else Translate(mem0, s, q)
    {
      assert SamePath(mem, root, s, q) <==> SamePath(mem0, root, s, q);
      assert SamePath(mem, root, root, q);
      assert Translate(mem, s, q) == if page <= q < page + n && SamePath(mem0, root, s, q) then Translate(mem, root, q) else Translate(mem0, s, q);
    }
  }

  /** Maps a free page to a new frame. */
  method MapLoose(m: Mmu, page: nat, flags: Flags, root: nat) returns (ok: bool, ghost f: nat)
    requires m.Valid() && IsRoot(m.tree, root) && page < PAGES && Translate(m.memory, root, page).None? && Clear(m.memory, root, 4, page)
    modifies m`memory, m`tree, m.frames.bytes
    ensures m.Valid() && IsRoot(m.tree, root) && |m.memory| == old(|m.memory|)
    ensures !ok ==> m.OutOfFrames()
    ensures ok ==> Updates(old(m.memory), old(m.tree), m.memory, root, page, Leaf(f, flags))
    ensures PathsKept(old(m.memory), old(m.tree), m.memory)
    ensures forall s :: IsRoot(m.tree, s) <==> IsRoot(old(m.tree), s)
    ensures ok ==> f !in old(m.frames.Used()) && Loose(m, f) && old(m.tree.Keys) <= m.tree.Keys
    ensures ok ==> m.frames.Used() == old(m.frames.Used()) + (m.tree.Keys - old(m.tree.Keys)) + {f}
    ensures ok ==> old(m.frames.Used()) !! (m.tree.Keys - old(m.tree.Keys))
  {
    hide UsedFrames, WellFormed, OwnsData, Updates, DataKept, Mapped, PathsKept, Walk;
    f := 0;
    PathsKeptSelf(m.memory, m.tree);
    var frame := m.GetFrame();
    if frame.None? { return false, f; }
    f := frame.value;
    ok := m.MapPage(frame.value, page, flags, root, false);
  }

  /** `Memory::getFreePages` for either half: the least free run, each page with a new frame. */
  method GetPages(m: Mmu, size: nat, user: bool, flags: Flags, root: nat) returns (r: Search, ghost fs: seq<nat>)
    requires m.Valid() && IsRoot(m.tree, root)
    modifies m`memory, m`tree, m.frames.bytes
    ensures m.Valid() && IsRoot(m.tree, root)
    ensures r.OutOfFrames? ==> m.OutOfFrames()
    ensures r.OutOfAddresses? && size > 0 ==> NoneInDirectory(old(m.memory), root, user, size)
    ensures r.Found? ==>
      && size > 0 && FirstInDirectory(old(m.memory), root, user, r.page, size)
      && (if user then LeastUserRun(old(m.memory), root, r.page, size) else LeastKernelRun(old(m.memory), root, r.page, size))
      && |fs| == size && MapsRange(old(m.memory), m.memory, root, r.page, fs, flags)
      && Taken(old(m.frames.Used()), old(m.tree.Keys), m.frames.Used(), m.tree.Keys, |m.memory|, fs)
      && Elsewhere(old(m.memory), old(m.tree), m.memory, root, r.page, size)
    ensures PathsKept(old(m.memory), old(m.tree), m.memory)
  {
    hide UsedFrames, WellFormed, OwnsData, SpaceFrames, Updates, HeldFrame, Grows, MapsRange, FirstInDirectory, NoneInDirectory, Walk, Taken, Elsewhere, PathsKept, Clear, Doors, HasTables, LeastUserRun, LeastKernelRun;
    ghost var mem0, tree0, used0 := m.memory, m.tree, m.frames.Used();
    fs := [];
    r := FindFreePages(m, size, user, root);
    RootsStay(mem0, tree0, m.memory, m.tree, root, user);
    RootsKept(mem0, tree0, m.memory, m.tree, if user then Some(root) else None);
    GrowsKeepsPaths(mem0, tree0, m.memory, m.tree, if user then Some(root) else None);
    if !r.Found? { return; }
    ElsewhereStart(mem0, tree0, m.memory, m.tree, if user then Some(root) else None, root, r.page);
    TakenNothing(used0, tree0.Keys, m.frames.Used(), m.tree.Keys, |m.memory|);
    MapsRangeStart(mem0, tree0, m.memory, m.tree, if user then Some(root) else None, root, r.page, flags);
    for i := 0 to size
      invariant m.Valid() && IsRoot(m.tree, root)
      invariant |fs| == i && Taken(used0, tree0.Keys, m.frames.Used(), m.tree.Keys, |m.memory|, fs)
      invariant MapsRange(mem0, m.memory, root, r.page, fs, flags)
      invariant Elsewhere(mem0, tree0, m.memory, root, r.page, i) && PathsKept(mem0, tree0, m.memory)
      invariant forall s :: IsRoot(m.tree, s) <==> IsRoot(tree0, s)
    {
      FirstIsClear(mem0, tree0, m.memory, root, r.page, size, i, user);
      NothingThere(mem0, m.memory, root, r.page, fs, flags);
      ghost var mem1, tree1, used1 := m.memory, m.tree, m.frames.Used();
      var ok;
      ghost var f;
      ok, f := MapLoose(m, r.page + i, flags, root);
      PathsKeptCompose(mem0, tree0, mem1, tree1, m.memory);
      if !ok { return OutOfFrames, fs; }
      MapsRangeStep(mem0, mem1, tree1, m.memory, root, r.page, fs, f, flags);
      ElsewhereStep(mem0, tree0, mem1, tree1, m.memory, root, r.page, i, Leaf(f, flags));
      TakenStep(used0, tree0.Keys, used1, tree1.Keys, m.frames.Used(), m.tree.Keys, |m.memory|, fs, f);
      fs := fs + [f];
    }
  }

  lemma FirstIsClear(mem: Memory, tree: Tree, mem': Memory, root: nat, page: nat, size: nat, i: nat, user: bool)
    requires FirstInDirectory(mem, root, user, page, size) && i < size && IsRoot(tree, root) && PathsKept(mem, tree, mem')
    ensures page + i < PAGES && Translate(mem, root, page + i).None? && Clear(mem', root, 4, page + i)
  {
    hide Walk, Clear, SamePath, IsFirst, Huge, SearchFrom, SearchEnd;
    var i3: nat :| Directory(mem, root, user, i3) && IsFirst(FreePages(mem, root), Anywhere(), SearchFrom(user, i3), SearchEnd(user, i3), page, size);
    FirstIsFree(mem, root, page, size, i, user, i3);
  }

  lemma RangeIsClear(mem: Memory, tree: Tree, mem': Memory, root: nat, page: nat, size: nat, user: bool)
    requires FirstInDirectory(mem, root, user, page, size) && size > 0 && IsRoot(tree, root) && PathsKept(mem, tree, mem')
    ensures page + size <= PAGES
    ensures forall q: nat :: page <= q < page + size ==> Translate(mem, root, q).None? && Clear(mem', root, 4, q)
  {
    hide Walk, Clear, FirstInDirectory, PathsKept;
    FirstIsClear(mem, tree, mem', root, page, size, size - 1, user);
    forall q: nat | page <= q < page + size ensures Translate(mem, root, q).None? && Clear(mem', root, 4, q) {
      FirstIsClear(mem, tree, mem', root, page, size, q - page, user);
    }
  }

  lemma NothingThere(mem: Memory, mem': Memory, root: nat, page: nat, fs: seq<nat>, flags: Flags)
    requires MapsRange(mem, mem', root, page, fs, flags)
    requires page + |fs| < PAGES && Translate(mem, root, page + |fs|).None?
    ensures Translate(mem', root, page + |fs|).None?
  {
    hide Walk;
  }

  lemma RootsStay(mem: Memory, tree: Tree, mem': Memory, tree': Tree, root: nat, user: bool)
    requires Grows(mem, tree, mem', tree', if user then Some(root) else None) && IsRoot(tree, root)
    ensures IsRoot(tree', root) && tree.Keys <= tree'.Keys
  {
    hide Walk, WellFormed, OwnsData, SamePath;
  }

  /** The mapped pages of the range have loose frames, all different, and no large page lies there. */
  ghost predicate Releasable(m: Mmu, root: nat, page: nat, size: nat)
    reads m, m.frames.bytes
  {
    && (forall q: nat :: page <= q < page + size ==> Clear(m.memory, root, 4, q))
    && (forall q: nat :: page <= q < page + size && Translate(m.memory, root, q).Some? ==> Loose(m, Translate(m.memory, root, q).value.address))
    && (forall q: nat, p: nat :: page <= p < q < page + size && Translate(m.memory, root, p).Some? && Translate(m.memory, root, q).Some? ==>
          Translate(m.memory, root, p).value.address != Translate(m.memory, root, q).value.address)
  }

  lemma HeldBefore(mem: Memory, root: nat, page: nat, i: nat, f: nat)
    requires f in HeldIn(mem, root, page, i)
    ensures exists q: nat :: page <= q < page + i && Translate(mem, root, q).Some? && Translate(mem, root, q).value.address == f
  {
    hide Walk;
    if f !in HeldIn(mem, root, page, i - 1) {
      assert page <= page + i - 1 < page + i;
    }
  }

  /** `Memory::releasePages` on a range of either half; false is the panic on the first page that is not mapped. */
  method ReleaseRange(m: Mmu, page: nat, size: nat, root: nat) returns (ok: bool)
    requires m.Valid() && IsRoot(m.tree, root) && page + size <= PAGES && Releasable(m, root, page, size)
    modifies m`memory, m`tree, m.frames.bytes
    ensures m.Valid() && m.tree == old(m.tree)
    ensures ok <==> forall q: nat :: page <= q < page + size ==> Translate(old(m.memory), root, q).Some?
    ensures ok ==> UnmapsRange(old(m.memory), m.memory, root, page, size)
    ensures ok ==> m.frames.Used() == old(m.frames.Used()) - HeldIn(old(m.memory), root, page, size)
  {
    hide UsedFrames, WellFormed, OwnsData, Updates, HeldIn, UnmapsRange, Walk, PathsKept, Unmapped, Clear;
    ghost var mem0, tree0, used0 := m.memory, m.tree, m.frames.Used();
    PathsKeptSelf(mem0, tree0);
    UnmapsNothing(mem0, root, page);
    HeldInStep(mem0, root, page, 0);
    for i := 0 to size
      invariant m.Valid() && m.tree == tree0 && |m.memory| == |mem0|
      invariant m.frames.Used() == used0 - HeldIn(mem0, root, page, i)
      invariant UnmapsRange(mem0, m.memory, root, page, i) && PathsKept(mem0, tree0, m.memory)
      invariant forall q: nat :: page <= q < page + i ==> Translate(mem0, root, q).Some?
    {
      ghost var mem1, q := m.memory, page + i;
      NotYetUnmapped(mem0, mem1, root, page, i);
      StaysClear(mem0, tree0, mem1, root, q);
      assert Translate(mem0, root, q).Some? ==> Translate(mem0, root, q).value.address !in tree0;
      var f := m.UnmapPage(page + i, root);
      if f.None? { return false; }
      UnmapsRangeStep(mem0, mem1, tree0, m.memory, root, page, i);
      PathsKeptCompose(mem0, tree0, mem1, tree0, m.memory);
      HeldInStep(mem0, root, page, i);
      assert f.value !in HeldIn(mem0, root, page, i) by {
        if f.value in HeldIn(mem0, root, page, i) { HeldBefore(mem0, root, page, i, f.value); }
      }
      m.FreeFrame(f.value);
    }
    ok := true;
  }

  lemma StaysClear(mem: Memory, tree: Tree, mem': Memory, root: nat, page: nat)
    requires PathsKept(mem, tree, mem') && IsRoot(tree, root)
    ensures Clear(mem', root, 4, page) <==> Clear(mem, root, 4, page)
  {
    hide Clear, SamePath;
  }

  lemma {:induction false} HeldAfterMap(mem: Memory, mem': Memory, root: nat, page: nat, fs: seq<nat>, flags: Flags, i: nat)
    requires MapsRange(mem, mem', root, page, fs, flags) && i <= |fs| && page + |fs| <= PAGES
    ensures HeldIn(mem', root, page, i) == Members(fs[..i])
  {
    hide Walk;
    if i > 0 {
      HeldAfterMap(mem, mem', root, page, fs, flags, i - 1);
      assert fs[..i] == fs[..i - 1] + [fs[i - 1]];
      assert Translate(mem', root, page + i - 1) == Some(Leaf(fs[i - 1], flags));
    }
  }

  /** Pages obtained and released again: every page translates as before, and of the frames only new
      tables stay in use. */
  method GetThenRelease(m: Mmu, size: nat, user: bool, flags: Flags, root: nat) returns (r: Search)
    requires m.Valid() && IsRoot(m.tree, root)
    modifies m`memory, m`tree, m.frames.bytes
    ensures m.Valid()
    ensures r.Found? ==> m.frames.Used() == old(m.frames.Used()) + (m.tree.Keys - old(m.tree.Keys))
    ensures r.Found? ==> forall q: nat :: q < PAGES ==> Translate(m.memory, root, q) == Translate(old(m.memory), root, q)
  {
    hide UsedFrames, WellFormed, OwnsData, HeldIn, UnmapsRange, Walk, MapsRange, FirstInDirectory, NoneInDirectory, Clear, PathsKept, Elsewhere, LeastUserRun, LeastKernelRun;
    ghost var mem0, used0, tree0, shape0 := m.memory, m.frames.Used(), m.tree.Keys, m.tree;
    ghost var fs;
    r, fs := GetPages(m, size, user, flags, root);
    if !r.Found? { return; }
    ghost var mem1 := m.memory;
    RangeIsClear(mem0, shape0, mem1, root, r.page, size, user);
    MappedRange(mem0, mem1, root, r.page, fs, flags);
    HeldAfterMap(mem0, mem1, root, r.page, fs, flags, size);
    assert fs[..size] == fs;
    TakenLoose(m, used0, tree0, fs);
    assert Releasable(m, root, r.page, size);
    var ok := ReleaseRange(m, r.page, size, root);
    forall q: nat | q < PAGES ensures Translate(m.memory, root, q) == Translate(mem0, root, q) {
      BackAgain(mem0, mem1, m.memory, root, r.page, fs, flags, q);
    }
    assert m.tree.Keys !! Members(fs) && used0 !! Members(fs);
  }

  lemma TakenLoose(m: Mmu, used0: set<nat>, tree0: set<nat>, fs: seq<nat>)
    requires Taken(used0, tree0, m.frames.Used(), m.tree.Keys, |m.memory|, fs)
    ensures forall i :: 0 <= i < |fs| ==> Loose(m, fs[i])
  {
    hide UsedFrames;
    forall i | 0 <= i < |fs| ensures Loose(m, fs[i]) {
      assert fs[i] in Members(fs);
    }
  }

  lemma MappedRange(mem: Memory, mem': Memory, root: nat, page: nat, fs: seq<nat>, flags: Flags)
    requires MapsRange(mem, mem', root, page, fs, flags) && page + |fs| <= PAGES
    ensures forall q: nat :: page <= q < page + |fs| ==> Translate(mem', root, q) == Some(Leaf(fs[q - page], flags))
  {
    hide Walk;
  }

  lemma BackAgain(mem0: Memory, mem1: Memory, mem2: Memory, root: nat, page: nat, fs: seq<nat>, flags: Flags, q: nat)
    requires MapsRange(mem0, mem1, root, page, fs, flags) && UnmapsRange(mem1, mem2, root, page, |fs|) && q < PAGES
    requires forall p: nat :: page <= p < page + |fs| ==> Translate(mem0, root, p).None?
    ensures Translate(mem2, root, q) == Translate(mem0, root, q)
  {
    hide Walk;
  }
}

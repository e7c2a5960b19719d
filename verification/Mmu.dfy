/** The page-table code over one physical memory: tables are taken from the frame bitmap and
    written in place. */
module Mmu {
  import opened Common
  import opened FirstFit
  import opened Physical
  import opened PageTables
  import Boot

  /** The frames taken between two moments are the new tables. */
  ghost predicate Added(tree: Tree, used: set<nat>, tree': Tree, used': set<nat>) {
    used' == used + (tree'.Keys - tree.Keys) && used !! (tree'.Keys - tree.Keys)
  }

  lemma NoFreeFrame(bytes: seq<bv8>)
    requires NoRun(Free(bytes), Aligned(PAGE_SIZE), 0, 8 * |bytes|, 1)
    ensures forall f: nat :: f < 8 * |bytes| ==> f in UsedFrames(bytes)
  {
    hide Get;
    forall f: nat | f < 8 * |bytes| ensures f in UsedFrames(bytes) {
      assert !IsRun(Free(bytes), Aligned(PAGE_SIZE), f, 1);
    }
  }

  lemma LeastFrame(bytes: seq<bv8>, least: nat)
    requires IsFirst(Free(bytes), Aligned(PAGE_SIZE), 0, 8 * |bytes|, least, 1)
    ensures forall f: nat :: f < least ==> f in UsedFrames(bytes)
  {
    hide Get;
    forall f: nat | f < least ensures f in UsedFrames(bytes) {
      assert !IsRun(Free(bytes), Aligned(PAGE_SIZE), f, 1);
    }
  }

  /** Which spaces reach a page through the same tables stays as it was, and where large pages lie. */
  ghost predicate PathsKept(mem: Memory, tree: Tree, mem': Memory) {
    && (forall r, s, p: nat :: IsRoot(tree, r) && IsRoot(tree, s) ==> (SamePath(mem', r, s, p) <==> SamePath(mem, r, s, p)))
    && (forall r, p: nat :: IsRoot(tree, r) ==> (Clear(mem', r, 4, p) <==> Clear(mem, r, 4, p)))
  }

  lemma PathsKeptSelf(mem: Memory, tree: Tree)
    ensures PathsKept(mem, tree, mem)
  {
  }

  lemma GrowsKeepsPaths(mem: Memory, tree: Tree, mem': Memory, tree': Tree, space: Option<nat>)
    requires Grows(mem, tree, mem', tree', space)
    ensures PathsKept(mem, tree, mem')
  {
    hide SamePath, Walk, OwnsData, WellFormed, Clear;
  }

  lemma PathsKeptCompose(mem0: Memory, tree0: Tree, mem1: Memory, tree1: Tree, mem2: Memory)
    requires PathsKept(mem0, tree0, mem1) && PathsKept(mem1, tree1, mem2)
    requires forall r :: IsRoot(tree1, r) <==> IsRoot(tree0, r)
    ensures PathsKept(mem0, tree0, mem2)
  {
    hide SamePath, IsRoot, Clear;
  }

  /** Paths are decided in level-4 tables, which a level-1 entry is not in. */
  lemma WriteKeepsPaths(mem: Memory, tree: Tree, t: nat, i: nat, e: Pml, own: bool)
    requires CanWrite(mem, tree, t, i, e, own) && CanWrite(mem, tree, t, i, e, false) && tree[t].level == 1 && IsTable(mem, t)
    ensures PathsKept(mem, tree, WithEntry(mem, t, i, e))
  {
    hide LeafTree, WellFormed, Clear;
    var mem' := WithEntry(mem, t, i, e);
    forall r, p: nat | IsRoot(tree, r) ensures Clear(mem', r, 4, p) <==> Clear(mem, r, 4, p) {
      WriteKeepsClear(mem, tree, t, i, e, r, 4, p);
    }
    forall r, s, p: nat | IsRoot(tree, r) && IsRoot(tree, s) ensures SamePath(mem', r, s, p) <==> SamePath(mem, r, s, p) {
      WrittenEntries(mem, tree, t, i, e, own, r, Index(p, 4));
      WrittenEntries(mem, tree, t, i, e, own, s, Index(p, 4));
    }
  }

  class Mmu {
    const frames: FrameBitmap
    var memory: Memory
    ghost var tree: Tree

    /** The machine at boot, with the kernel's window and image as its only pages. */
    constructor (bitmap: FrameBitmap, b: Boot.Frames)
      requires 8 * bitmap.bytes.Length <= 0x8_0000 && b.Apart(8 * bitmap.bytes.Length) && b.All() <= bitmap.Used()
      ensures Valid() && frames == bitmap && memory == Boot.BootMemory(8 * bitmap.bytes.Length, b) && tree == Boot.BootTree(b)
    {
      frames := bitmap;
      memory := Boot.BootMemory(8 * bitmap.bytes.Length, b);
      tree := Boot.BootTree(b);
      new;
      Boot.BootWellFormed(8 * bitmap.bytes.Length, b);
    }

    /** Frame numbers stay below 2^19, where shifting an entry's address field is exact. Every
        frame of a tree is marked used. */
    ghost predicate Valid()
      reads this, frames.bytes
    {
      && |memory| == 8 * frames.bytes.Length <= 0x8_0000
      && WellFormed(memory, tree)
      && tree.Keys <= frames.Used()
    }

    ghost predicate OutOfFrames()
      reads this, frames.bytes
    {
      forall f: nat :: f < |memory| ==> f in frames.Used()
    }

    method GetFrame() returns (r: Option<nat>)
      requires |memory| == 8 * frames.bytes.Length
      modifies frames.bytes
      ensures r.Some? ==> r.value < |memory| && r.value !in old(frames.Used()) && frames.Used() == old(frames.Used()) + {r.value}
      ensures r.Some? ==> forall f: nat :: f < r.value ==> f in old(frames.Used())
      ensures r.None? ==> OutOfFrames() && frames.Used() == old(frames.Used())
    {
      hide Get;
      var a := frames.GetFreePages(1, PAGE_SIZE);
      if a.None? {
        NoFreeFrame(frames.bytes[..]);
        return None;
      }
      var f := a.value / PAGE_SIZE;
      assert Run(f, 1) == {f};
      LeastFrame(old(frames.bytes[..]), f);
      r := Some(f);
    }

    /** Gives back one frame; the caller must know that it is in use. */
    method FreeFrame(f: nat)
      requires |memory| == 8 * frames.bytes.Length && f < |memory|
      requires f in frames.Used()
      modifies frames.bytes
      ensures frames.Used() == old(frames.Used()) - {f}
    {
      hide Get;
      frames.FreePages(f * PAGE_SIZE, 1);
      assert Run(f, 1) == {f};
    }

    /** The table that entry i of t names, installed empty if there is none. */
    method EnsureTable(t: nat, i: nat, user: bool) returns (r: Option<nat>)
      requires Valid() && t in tree && tree[t].level > 1 && i < ENTRIES
      requires EntryAt(memory, t, i).present ==> !EntryAt(memory, t, i).size
      modifies `memory, `tree, frames.bytes
      ensures Valid() && Grows(old(memory), old(tree), memory, tree, ChildNode(old(tree), t, i).space)
      ensures Added(old(tree), old(frames.Used()), tree, frames.Used())
      ensures r.Some? ==> Names(EntryAt(memory, t, i)) && EntryAt(memory, t, i).address == r.value
      ensures r.Some? ==> r.value in tree && tree[r.value] == ChildNode(old(tree), t, i)
      ensures r.None? ==> OutOfFrames() && memory == old(memory)
      ensures r.Some? && !old(EntryAt(memory, t, i).present) ==>
        EntryAt(memory, t, i) == Pml(true, false, r.value, Flags(true, user, false, false, false, false))
      ensures Doors(old(memory), old(tree), memory, user)
    {
      hide Grows, UsedFrames, Doors, WellFormed, NodeOk, LinksOk, Linked, CanLink;
      LevelAtMost4(memory, tree, t);
      DoorsSelf(memory, tree, user);
      if !memory[t].entries[i].present {
        var a := GetFrame();
        if a.None? {
          GrowsSelf(memory, tree, ChildNode(tree, t, i).space);
          return None;
        }
        CanLinkHere(memory, tree, t, i, a.value, user);
        LinkGrows(memory, tree, t, i, a.value, user);
        LinkDoors(memory, tree, t, i, a.value, user);
        tree := tree[a.value := ChildNode(tree, t, i)];
        memory := memory[t := Table(memory[t].entries[i := Link(a.value, user)])];
        memory := memory[a.value := EmptyTable()];
        assert tree.Keys - old(tree.Keys) == {a.value};
        GrowsWellFormed(old(memory), old(tree), memory, tree, ChildNode(old(tree), t, i).space);
      } else {
        LinkAt(memory, tree, t, i);
        GrowsSelf(memory, tree, ChildNode(tree, t, i).space);
      }
      r := Some(memory[t].entries[i].address);
    }

    /** Writes the level-1 entry of a page, whose tables are all there. */
    method SetEntry(root: nat, page: nat, slot: (nat, nat), e: Pml, ghost own: bool)
      requires Valid() && IsRoot(tree, root) && page < PAGES
      requires Slot(memory, root, 4, page) == Some(slot)
      requires own ==> Names(e) && e.address in frames.Used() && e.address < |memory| && e.address !in tree
      modifies `memory, `tree
      ensures Valid() && |memory| == old(|memory|)
      ensures forall r :: IsRoot(tree, r) <==> IsRoot(old(tree), r)
      ensures DataKept(old(memory), old(tree), old(frames.Used()), memory, tree)
      ensures Updates(old(memory), old(tree), memory, root, page, e)
      ensures PathsKept(old(memory), old(tree), memory)
      ensures forall user :: Doors(old(memory), old(tree), memory, user)
      ensures old(slot.0 in tree && tree[slot.0].level == 1) && tree == old(LeafTree(memory, tree, slot.0, slot.1, e, own))
      ensures forall r :: (r != root || own || !e.present || !Lower(page)) && OwnsData(old(memory), old(tree), r) ==> OwnsData(memory, tree, r)
    {
      hide Slot, UsedFrames, WellFormed, Updates, PathsKept, Doors;
      var (t, i) := slot;
      SlotInTree(memory, tree, root, 4, page);
      LevelAtMost4(memory, tree, t);
      WriteKeepsWellFormed(memory, tree, t, i, e, own);
      EntryWriteUpdates(memory, tree, root, page, e);
      WriteKeepsPaths(memory, tree, t, i, e, own);
      forall user ensures Doors(memory, tree, WithEntry(memory, t, i, e), user) { WriteKeepsDoors(memory, tree, t, i, e, user); }
      ghost var tree' := LeafTree(memory, tree, t, i, e, own);
      forall r | (r != root || own || !e.present || !Lower(page)) && OwnsData(memory, tree, r)
        ensures OwnsData(WithEntry(memory, t, i, e), tree', r)
      {
        assert tree[root].space == Some(root) by { RootSpace(memory, tree, root); }
        WriteKeepsOwnership(memory, tree, t, i, e, own, r);
      }
      tree := tree';
      memory := memory[t := Table(memory[t].entries[i := e])];
    }

    /** The level-1 table of a page, after installing up to three empty tables on the way. */
    method TableFor(root: nat, page: nat) returns (r: Option<nat>)
      requires Valid() && IsRoot(tree, root) && page < PAGES && Clear(memory, root, 4, page)
      modifies `memory, `tree, frames.bytes
      ensures Valid() && Grows(old(memory), old(tree), memory, tree, if Lower(page) then Some(root) else None)
      ensures Added(old(tree), old(frames.Used()), tree, frames.Used())
      ensures r.None? ==> OutOfFrames()
      ensures r.Some? ==> Slot(memory, root, 4, page) == Some((r.value, Index(page, 1)))
      ensures Doors(old(memory), old(tree), memory, Index(page, 4) < 128)
    {
      hide Grows, UsedFrames, WellFormed, Slot, OwnsData, LinksOk, NodeOk, DataKept, Clear, Doors;
      ghost var mem0, tree0, space := memory, tree, if Lower(page) then Some(root) else None;
      RootSpace(memory, tree, root);
      var user := Index(page, 4) < 128;
      ClearNext(mem0, root, 4, page);
      var c3 := EnsureTable(root, Index(page, 4), user);
      ghost var mem1, tree1 := memory, tree;
      RootsKept(mem0, tree0, mem1, tree1, space);
      if c3.None? { return None; }
      GrowsKeepsClear(mem0, tree0, mem1, tree1, space, root, page);
      ClearNext(mem1, root, 4, page);
      ClearNext(mem1, c3.value, 3, page);
      var c2 := EnsureTable(c3.value, Index(page, 3), user);
      ghost var mem2, tree2 := memory, tree;
      RootsKept(mem1, tree1, mem2, tree2, space);
      GrowsCompose(mem0, tree0, mem1, tree1, mem2, tree2, space);
      DoorsCompose(mem0, tree0, mem1, tree1, mem2, user);
      if c2.None? { return None; }
      EntryKept(mem1, tree1, mem2, tree2, space, root, Index(page, 4));
      GrowsKeepsClear(mem1, tree1, mem2, tree2, space, root, page);
      ClearNext(mem2, root, 4, page);
      ClearNext(mem2, c3.value, 3, page);
      ClearNext(mem2, c2.value, 2, page);
      var c1 := EnsureTable(c2.value, Index(page, 2), user);
      ghost var mem3, tree3 := memory, tree;
      RootsKept(mem2, tree2, mem3, tree3, space);
      GrowsCompose(mem0, tree0, mem2, tree2, mem3, tree3, space);
      DoorsCompose(mem0, tree0, mem2, tree2, mem3, user);
      if c1.None? { return None; }
      EntryKept(mem2, tree2, mem3, tree3, space, c3.value, Index(page, 3));
      EntryKept(mem1, tree1, mem2, tree2, space, root, Index(page, 4));
      EntryKept(mem2, tree2, mem3, tree3, space, root, Index(page, 4));
      SlotAlong(memory, tree, root, c3.value, c2.value, c1.value, page);
      r := c1;
    }

    /** Maps one page. A missing frame for a table is the panic of the source. `own` says that
        the frame was allocated for this page alone. */
    method MapPage(frame: nat, page: nat, flags: Flags, root: nat, ghost own: bool) returns (ok: bool)
      requires Valid() && IsRoot(tree, root) && page < PAGES && Clear(memory, root, 4, page)
      requires own ==> frame in frames.Used() && frame < |memory| && frame !in tree
      modifies `memory, `tree, frames.bytes
      ensures Valid() && |memory| == old(|memory|)
      ensures old(frames.Used()) <= frames.Used()
      ensures forall r :: IsRoot(tree, r) <==> IsRoot(old(tree), r)
      ensures !ok ==> OutOfFrames()
      ensures DataKept(old(memory), old(tree), old(frames.Used()), memory, tree)
      ensures ok ==> Updates(old(memory), old(tree), memory, root, page, Leaf(frame, flags))
      ensures ok ==> Translate(memory, root, page) == Some(Pml(true, false, frame, flags))
      ensures PathsKept(old(memory), old(tree), memory)
      ensures Doors(old(memory), old(tree), memory, Index(page, 4) < 128)
      ensures ok ==> (Open(memory, root, 4, page) <==> old(Open(memory, root, 4, page)) && (page < 0x4000_0000_0000 / 4096 || old(Slot(memory, root, 4, page).Some?)))
      ensures ok ==> Mapped(old(memory), old(tree), memory, tree, root, page, frame, own, frames.Used() - old(frames.Used()))
      ensures tree.Keys <= old(tree.Keys) + (frames.Used() - old(frames.Used())) + (if own then {frame} else {})
      ensures ok && Translate(old(memory), root, page).None? ==>
        tree.Keys == old(tree.Keys) + (frames.Used() - old(frames.Used())) + (if own then {frame} else {})
    {
      hide Grows, UsedFrames, WellFormed, Updates, Slot, OwnsData, LinksOk, NodeOk, Mapped, DataKept, LeafTree, PathsKept, Doors, Open;
      ghost var mem0, tree0, used0, space := memory, tree, frames.Used(), if Lower(page) then Some(root) else None;
      var table := TableFor(root, page);
      ghost var mem1, tree1, used1 := memory, tree, frames.Used();
      RootsKept(mem0, tree0, mem1, tree1, space);
      GrowsKeepsData(mem0, tree0, used0, mem1, tree1, used1, space);
      GrowsKeepsPaths(mem0, tree0, mem1, tree1, space);
      if table.None? { return false; }
      SameWalk(mem0, tree0, mem1, tree1, space, root, page);
      SetEntry(root, page, (table.value, Index(page, 1)), Leaf(frame, flags), own);
      LeafTreeKeys(mem1, tree1, table.value, Index(page, 1), Leaf(frame, flags), own);
      DataKeptCompose(mem0, tree0, used0, mem1, tree1, used1, memory, tree);
      PathsKeptCompose(mem0, tree0, mem1, tree1, memory);
      DoorsCompose(mem0, tree0, mem1, tree1, memory, Index(page, 4) < 128);
      DoorsAt(mem1, tree1, memory, true, root, page);
      DoorsAt(mem0, tree0, memory, Index(page, 4) < 128, root, page);
      UpdatedPage(mem1, tree1, memory, root, page, Leaf(frame, flags));
      ProgramSlots(page);
      GrowThenUpdate(mem0, tree0, mem1, tree1, space, memory, root, page, Leaf(frame, flags));
      GrowThenMap(mem0, tree0, mem1, tree1, space, memory, tree, root, page, Leaf(frame, flags), own, used1 - used0);
      ok := true;
    }

    /** Clears the present bit of a mapped page and returns its frame; None is the panic of the
        source, which happens exactly on a page that is not mapped. */
    method UnmapPage(page: nat, root: nat) returns (r: Option<nat>)
      requires Valid() && IsRoot(tree, root) && page < PAGES && Clear(memory, root, 4, page)
      modifies `memory, `tree
      ensures Valid() && |memory| == old(|memory|)
      ensures forall s :: IsRoot(tree, s) <==> IsRoot(old(tree), s)
      ensures r.None? <==> Translate(old(memory), root, page).None?
      ensures r.None? ==> memory == old(memory) && tree == old(tree)
      ensures r.Some? ==> r.value == Translate(old(memory), root, page).value.address
      ensures r.Some? ==> Updates(old(memory), old(tree), memory, root, page, ABSENT) && Translate(memory, root, page).None?
      ensures r.Some? ==> Unmapped(old(memory), old(tree), memory, tree, root, page)
      ensures PathsKept(old(memory), old(tree), memory)
      ensures Doors(old(memory), old(tree), memory, true)
      ensures r.Some? && r.value !in old(tree) ==> tree == old(tree)
    {
      hide UsedFrames, WellFormed, Updates, OwnsData, LinksOk, NodeOk, Unmapped, LeafTree, Dropped, PathsKept, Doors;
      DoorsSelf(memory, tree, true);
      assert PathsKept(memory, tree, memory) by { PathsKeptSelf(memory, tree); }
      var i4, i3, i2 := Index(page, 4), Index(page, 3), Index(page, 2);
      var e4 := EntryAt(memory, root, i4);
      WalkSteps(memory, tree, root, page);
      if !e4.present { return None; }
      var e3 := EntryAt(memory, e4.address, i3);
      if !e3.present { return None; }
      var e2 := EntryAt(memory, e3.address, i2);
      if !e2.present { return None; }
      var e1 := EntryAt(memory, e2.address, Index(page, 1));
      if !e1.present { return None; }
      ghost var mem0, tree0 := memory, tree;
      SetEntry(root, page, (e2.address, Index(page, 1)), e1.(present := false), false);
      LeafTreeKeys(mem0, tree0, e2.address, Index(page, 1), e1.(present := false), false);
      UpdateToAbsent(mem0, tree0, memory, root, page, e1.(present := false));
      SpacesAfterUnmap(mem0, tree0, memory, tree, root, page, e1.(present := false));
      assert Translate(memory, root, page).None? by { UnmappedPage(mem0, tree0, memory, root, page); }
      r := Some(e1.address);
    }

    /** The entry that getPage points to, or None for its null results. */
    method GetPage(page: nat, root: nat) returns (r: Option<Pml>)
      requires Valid() && IsRoot(tree, root) && page < PAGES
      ensures r.None? ==> Translate(memory, root, page).None?
      ensures r.Some? ==> Translate(memory, root, page) == if r.value.present then r else None
    {
      hide UsedFrames, WellFormed;
      WalkSteps(memory, tree, root, page);
      var e4 := EntryAt(memory, root, Index(page, 4));
      if !e4.present || e4.size { return None; }
      var e3 := EntryAt(memory, e4.address, Index(page, 3));
      if !e3.present || e3.size { return None; }
      var e2 := EntryAt(memory, e3.address, Index(page, 2));
      if !e2.present || e2.size { return None; }
      r := Some(EntryAt(memory, e2.address, Index(page, 1)));
    }

    /** A new space: a fresh level-4 table with the kernel's upper half. */
    method CreateAddressSpace(kernel: nat) returns (r: Option<nat>)
      requires Valid() && IsRoot(tree, kernel)
      modifies `memory, `tree, frames.bytes
      ensures Valid() && |memory| == old(|memory|)
      ensures r.None? ==> OutOfFrames()
      ensures r.Some? ==>
        && r.value !in old(frames.Used()) && frames.Used() == old(frames.Used()) + {r.value}
        && tree == old(tree)[r.value := Node(4, Some(r.value), Root)]
        && OwnsData(memory, tree, r.value) && SpaceFrames(tree, r.value) == {r.value}
      ensures r.Some? ==> forall p: nat :: Lower(p) ==> Translate(memory, r.value, p).None?
      ensures r.Some? ==> forall p: nat :: !Lower(p) ==>
        && Translate(memory, r.value, p) == Translate(memory, kernel, p)
        && (EntryAt(old(memory), kernel, Index(p, 4)).present ==> SamePath(memory, kernel, r.value, p))
      ensures r.Some? ==> forall p: nat :: Clear(memory, r.value, 4, p) <==> Lower(p) || Clear(old(memory), kernel, 4, p)
      ensures r.Some? ==> forall p: nat :: Lower(p) ==> Open(memory, r.value, 4, p) && Slot(memory, r.value, 4, p).None?
      ensures r.Some? ==> forall s, p: nat :: IsRoot(old(tree), s) ==> Translate(memory, s, p) == Translate(old(memory), s, p)
    {
      hide UsedFrames, WellFormed, NewRoot, SamePath, Walk, Clear;
      r := GetFrame();
      if r.None? { return; }
      LevelAtMost4(memory, tree, kernel);
      ghost var mem0, root := memory, NewRoot(memory[kernel].entries);
      CreateKeepsWellFormed(memory, tree, kernel, r.value);
      memory := memory[r.value := NewRoot(memory[kernel].entries)];
      forall s, p: nat | IsRoot(tree, s) ensures Translate(memory, s, p) == Translate(mem0, s, p) {
        ContentKeepsWalk(mem0, tree, r.value, root, s, 4, p);
      }
      forall p: nat
        ensures Clear(memory, r.value, 4, p) <==> Lower(p) || Clear(mem0, kernel, 4, p)
        ensures Translate(memory, r.value, p) == (if Lower(p) then None else Translate(mem0, kernel, p))
        ensures !Lower(p) && EntryAt(mem0, kernel, Index(p, 4)).present ==> SamePath(memory, kernel, r.value, p)
      {
        CreateTranslations(mem0, tree, kernel, r.value, p);
      }
      NewIsOpen(mem0, kernel, r.value);
      OnlyRootInSpace(mem0, tree, r.value);
      tree := tree[r.value := Node(4, Some(r.value), Root)];
    }

    /** Frees what hangs below the first `count` entries of table t, deepest first; the nested
        loops of destroyAddressSpace, one level per activation. Every frame is in use when its
        turn comes, so none is freed twice. */
    method FreeBelow(t: nat, level: nat, count: nat, ghost space: nat)
      requires |memory| == 8 * frames.bytes.Length && WellFormed(memory, tree)
      requires t in tree && tree[t].level == level && tree[t].space == Some(space)
      requires 0 < level <= 4 && count <= (if level == 4 then 256 else ENTRIES)
      requires OwnsData(memory, tree, space)
      requires Below(memory, tree, t, count) <= frames.Used()
      modifies frames.bytes
      ensures frames.Used() == old(frames.Used()) - Below(memory, tree, t, count)
      decreases level
    {
      hide UsedFrames, WellFormed, OwnsData, Below;
      BelowNothing(memory, tree, t);
      for i := 0 to count
        invariant frames.Used() == old(frames.Used()) - Below(memory, tree, t, i)
      {
        var e := EntryAt(memory, t, i);
        LeafLink(memory, tree, t, i, space);
        BelowStep(memory, tree, t, i);
        BelowGrows(memory, tree, t, i + 1, count);
        if e.present {
          FrameInMemory(memory, tree, e.address);
          if level > 1 {
            FreeBelow(e.address, level - 1, ENTRIES, space);
          } else {
            BelowData(memory, tree, e.address);
          }
          FreeFrame(e.address);
        }
      }
    }

    /** Frees every frame of the space once: its data, its tables and its root. */
    method DestroyAddressSpace(root: nat)
      requires Valid() && IsRoot(tree, root) && OwnsData(memory, tree, root)
      modifies `tree, frames.bytes
      ensures Valid() && tree == old(tree) - SpaceFrames(old(tree), root)
      ensures frames.Used() == old(frames.Used()) - SpaceFrames(old(tree), root)
    {
      hide UsedFrames, WellFormed, OwnsData, Below;
      RootSpace(memory, tree, root);
      FrameInMemory(memory, tree, root);
      SpaceIsBelowRoot(memory, tree, root);
      DestroyKeepsWellFormed(memory, tree, root);
      FreeBelow(root, 4, 256, root);
      FreeFrame(root);
      tree := tree - SpaceFrames(tree, root);
    }
  }

  lemma UnmappedPage(mem: Memory, tree: Tree, mem': Memory, root: nat, page: nat)
    requires Updates(mem, tree, mem', root, page, ABSENT) && IsRoot(tree, root) && page < PAGES
    ensures Translate(mem', root, page).None?
  {
    hide Walk;
    assert SamePath(mem, root, root, page);
  }

  lemma NewIsOpen(mem: Memory, kernel: nat, r: nat)
    requires IsTable(mem, kernel) && r < |mem|
    ensures var mem' := mem[r := NewRoot(mem[kernel].entries)];
      forall p: nat :: Lower(p) ==> Open(mem', r, 4, p) && Slot(mem', r, 4, p).None?
  {
    var mem' := mem[r := NewRoot(mem[kernel].entries)];
    forall p: nat | Lower(p) ensures Open(mem', r, 4, p) && Slot(mem', r, 4, p).None? {
      assert EntryAt(mem', r, Index(p, 4)) == ABSENT;
    }
  }

  /** Tables are linked for the program below address 0x400000000000, half of the user's half. */
  lemma ProgramSlots(page: nat)
    requires page < PAGES
    ensures Index(page, 4) < 128 <==> page < 0x4000_0000_0000 / 4096
  {
  }

  lemma CanLinkHere(mem: Memory, tree: Tree, t: nat, i: nat, a: nat, user: bool)
    requires WellFormed(mem, tree) && t in tree && tree[t].level > 1 && i < ENTRIES && IsTable(mem, t)
    requires !EntryAt(mem, t, i).present && a !in tree && a < |mem|
    ensures CanLink(mem, tree, t, i, a)
    ensures Linked(mem, t, i, a, user) == mem[t := Table(mem[t].entries[i := Link(a, user)])][a := EmptyTable()]
  {
  }

  lemma UpdatedPage(mem: Memory, tree: Tree, mem': Memory, root: nat, page: nat, e: Pml)
    requires Updates(mem, tree, mem', root, page, e) && IsRoot(tree, root) && page < PAGES && e.present
    ensures Translate(mem', root, page) == Some(e)
  {
    hide Walk;
    assert SamePath(mem, root, root, page);
  }

  lemma BelowNothing(mem: Memory, tree: Tree, t: nat)
    requires WellFormed(mem, tree) && t in tree && tree[t].level <= 4
    ensures Below(mem, tree, t, 0) == {}
  {
  }

  lemma BelowData(mem: Memory, tree: Tree, f: nat)
    requires WellFormed(mem, tree) && f in tree && tree[f].level == 0
    ensures Below(mem, tree, f, ENTRIES) == {}
  {
  }

  lemma BelowGrows(mem: Memory, tree: Tree, t: nat, m: nat, n: nat)
    requires WellFormed(mem, tree) && t in tree && tree[t].level <= 4 && m <= n
    ensures Below(mem, tree, t, m) <= Below(mem, tree, t, n)
  {
  }

  lemma LeafLink(mem: Memory, tree: Tree, t: nat, i: nat, space: nat)
    requires WellFormed(mem, tree) && OwnsData(mem, tree, space)
    requires t in tree && tree[t].level > 0 && tree[t].space == Some(space) && i < ENTRIES
    ensures LinkOkAtLeaf(mem, tree, t, i)
  {
    assert tree[t].level > 1 ==> LinkOk(mem, tree, t, i);
  }

  lemma FrameInMemory(mem: Memory, tree: Tree, f: nat)
    requires WellFormed(mem, tree) && f in tree
    ensures f < |mem|
  {
    assert NodeOk(mem, tree, f);
  }

  /** The walk of a page, one table at a time. */
  lemma WalkSteps(mem: Memory, tree: Tree, root: nat, page: nat)
    requires WellFormed(mem, tree) && IsRoot(tree, root)
    ensures var e4 := EntryAt(mem, root, Index(page, 4));
            var e3 := EntryAt(mem, e4.address, Index(page, 3));
            var e2 := EntryAt(mem, e3.address, Index(page, 2));
            && Slot(mem, root, 4, page) ==
               (if Names(e4) && Names(e3) && Names(e2) then Some((e2.address, Index(page, 1))) else None)
            && (Clear(mem, root, 4, page) <==> !e4.present || (!e4.size && (!e3.present || (!e3.size && (!e2.present || !e2.size)))))
  {
    var e4 := EntryAt(mem, root, Index(page, 4));
    var e3 := EntryAt(mem, e4.address, Index(page, 3));
    var e2 := EntryAt(mem, e3.address, Index(page, 2));
    assert Slot(mem, e2.address, 1, page) == Some((e2.address, Index(page, 1)));
    assert Slot(mem, e3.address, 2, page) == if Names(e2) then Some((e2.address, Index(page, 1))) else None;
    assert Slot(mem, e4.address, 3, page) == if Names(e3) then Slot(mem, e3.address, 2, page) else None;
    assert Clear(mem, e3.address, 2, page) <==> !e2.present || !e2.size;
    assert Clear(mem, e4.address, 3, page) <==> !e3.present || (!e3.size && Clear(mem, e3.address, 2, page));
  }

  lemma ClearNext(mem: Memory, t: nat, level: nat, page: nat)
    requires 1 < level <= 4 && Clear(mem, t, level, page)
    ensures var e := EntryAt(mem, t, Index(page, level)); e.present ==> !e.size && Clear(mem, e.address, level - 1, page)
  {
  }

  lemma GrowsKeepsClear(mem: Memory, tree: Tree, mem': Memory, tree': Tree, space: Option<nat>, root: nat, page: nat)
    requires Grows(mem, tree, mem', tree', space) && IsRoot(tree, root)
    ensures Clear(mem', root, 4, page) <==> Clear(mem, root, 4, page)
  {
    hide Clear, Walk, SamePath, OwnsData, WellFormed;
  }

  /** What an unmap does to the frames each space owns. */
  ghost predicate Unmapped(mem: Memory, tree: Tree, mem': Memory, tree': Tree, root: nat, page: nat) {
    && (forall r :: OwnsData(mem, tree, r) ==> OwnsData(mem', tree', r))
    && (forall r: nat :: IsRoot(tree, r) && r != root ==> SpaceFrames(tree', r) == SpaceFrames(tree, r))
    && (Lower(page) && OwnsData(mem, tree, root) ==>
        SpaceFrames(tree', root) == SpaceFrames(tree, root) - HeldFrame(mem, root, page)
        && tree'.Keys == tree.Keys - HeldFrame(mem, root, page))
    && (!Lower(page) ==> SpaceFrames(tree', root) == SpaceFrames(tree, root))
  }

  lemma UpdateToAbsent(mem: Memory, tree: Tree, mem': Memory, root: nat, page: nat, e: Pml)
    requires Updates(mem, tree, mem', root, page, e) && !e.present
    ensures Updates(mem, tree, mem', root, page, ABSENT)
  {
  }

  lemma SpacesAfterUnmap(mem: Memory, tree: Tree, mem': Memory, tree': Tree, root: nat, page: nat, e: Pml)
    requires WellFormed(mem, tree) && IsRoot(tree, root) && Slot(mem, root, 4, page).Some?
    requires var s := Slot(mem, root, 4, page).value;
             s.0 in tree && tree[s.0].level == 1 && tree' == LeafTree(mem, tree, s.0, s.1, e, false)
    requires forall r :: OwnsData(mem, tree, r) ==> OwnsData(mem', tree', r)
    ensures Unmapped(mem, tree, mem', tree', root, page)
  {
    hide WellFormed, OwnsData, Slot, SpaceFrames, LeafTree, Walk;
    var s := Slot(mem, root, 4, page).value;
    RootSpace(mem, tree, root);
    SlotInTree(mem, tree, root, 4, page);
    forall r: nat {
      SpaceAfterLeaf(mem, tree, s.0, s.1, e, false, r);
    }
    if Lower(page) && OwnsData(mem, tree, root) {
      LeafHeldIsHeld(mem, tree, root, page);
      assert tree'.Keys == tree.Keys - LeafHeld(mem, tree, s.0, s.1) by { LeafTreeDrops(mem, tree, s.0, s.1, e); }
    }
  }

  lemma LeafTreeDrops(mem: Memory, tree: Tree, t: nat, i: nat, e: Pml)
    requires t in tree && tree[t].level > 0
    ensures LeafTree(mem, tree, t, i, e, false).Keys == tree.Keys - LeafHeld(mem, tree, t, i)
  {
  }

  lemma OnlyRootInSpace(mem: Memory, tree: Tree, r: nat)
    requires WellFormed(mem, tree) && r !in tree
    ensures SpaceFrames(tree[r := Node(4, Some(r), Root)], r) == {r}
  {
    assert forall f :: f in tree ==> NodeOk(mem, tree, f);
  }

  lemma RootsKept(mem: Memory, tree: Tree, mem': Memory, tree': Tree, space: Option<nat>)
    requires Grows(mem, tree, mem', tree', space)
    ensures |mem'| == |mem| && WellFormed(mem', tree')
    ensures forall r :: IsRoot(tree', r) <==> IsRoot(tree, r)
    ensures forall f :: f in tree ==> f in tree' && tree'[f] == tree[f]
  {
  }

  lemma GrowsKeepsData(mem: Memory, tree: Tree, used: set<nat>, mem': Memory, tree': Tree, used': set<nat>, space: Option<nat>)
    requires Grows(mem, tree, mem', tree', space) && Added(tree, used, tree', used')
    ensures DataKept(mem, tree, used, mem', tree')
  {
    hide Translate, SamePath, OwnsData, WellFormed;
  }

  lemma DataKeptCompose(mem0: Memory, tree0: Tree, used0: set<nat>, mem1: Memory, tree1: Tree, used1: set<nat>, mem2: Memory, tree2: Tree)
    requires DataKept(mem0, tree0, used0, mem1, tree1) && DataKept(mem1, tree1, used1, mem2, tree2) && used0 <= used1
    ensures DataKept(mem0, tree0, used0, mem2, tree2)
  {
  }

  lemma SameWalk(mem: Memory, tree: Tree, mem': Memory, tree': Tree, space: Option<nat>, root: nat, page: nat)
    requires Grows(mem, tree, mem', tree', space) && IsRoot(tree, root)
    ensures Translate(mem', root, page) == Translate(mem, root, page)
  {
  }

  lemma LeafTreeKeys(mem: Memory, tree: Tree, t: nat, i: nat, e: Pml, own: bool)
    requires t in tree && tree[t].level > 0
    ensures LeafTree(mem, tree, t, i, e, own).Keys <= tree.Keys + (if own then {e.address} else {})
    ensures !EntryAt(mem, t, i).present || EntryAt(mem, t, i).address !in tree ==>
      LeafTree(mem, tree, t, i, e, own) == if own then tree[e.address := ChildNode(tree, t, i)] else tree
  {
  }

  lemma EntryKept(mem: Memory, tree: Tree, mem': Memory, tree': Tree, space: Option<nat>, t: nat, i: nat)
    requires Grows(mem, tree, mem', tree', space)
    requires t in tree && tree[t].level > 0 && EntryAt(mem, t, i).present
    ensures EntryAt(mem', t, i) == EntryAt(mem, t, i)
  {
  }

  lemma GrowThenUpdate(mem0: Memory, tree0: Tree, mem: Memory, tree: Tree, space: Option<nat>, mem': Memory, root: nat, page: nat, e: Pml)
    requires Grows(mem0, tree0, mem, tree, space) && IsRoot(tree0, root)
    requires Updates(mem, tree, mem', root, page, e)
    ensures Updates(mem0, tree0, mem', root, page, e)
  {
    hide Walk, WellFormed, OwnsData, SamePath;
    forall r, q: nat | IsRoot(tree0, r) && q < PAGES
      ensures Translate(mem', r, q) ==
        if q == page && SamePath(mem0, root, r, page) then (if e.present then Some(e) else None) else Translate(mem0, r, q)
    {
      assert IsRoot(tree, r);
      assert SamePath(mem, root, r, page) <==> SamePath(mem0, root, r, page);
    }
  }

  /** What a map does to the frames each space owns: `added` are the new tables, and a frame
      that the page held before is no longer owned. */
  ghost predicate Mapped(mem: Memory, tree: Tree, mem': Memory, tree': Tree, root: nat, page: nat, frame: nat, own: bool, added: set<nat>) {
    && (forall r :: (r != root || own || !Lower(page)) && OwnsData(mem, tree, r) ==> OwnsData(mem', tree', r))
    && (forall r :: r != root && IsRoot(tree, r) ==> SpaceFrames(tree', r) == SpaceFrames(tree, r))
    && (own && Lower(page) && OwnsData(mem, tree, root) ==>
        SpaceFrames(tree', root) == SpaceFrames(tree, root) - HeldFrame(mem, root, page) + {frame} + added)
    && (!Lower(page) ==> SpaceFrames(tree', root) == SpaceFrames(tree, root))
  }

  lemma GrowThenMap(mem0: Memory, tree0: Tree, mem: Memory, tree: Tree, space: Option<nat>, mem': Memory, tree': Tree,
                    root: nat, page: nat, e: Pml, own: bool, added: set<nat>)
    requires WellFormed(mem0, tree0) && Grows(mem0, tree0, mem, tree, space) && IsRoot(tree0, root)
    requires space == (if Lower(page) then Some(root) else None) && added == tree.Keys - tree0.Keys
    requires Slot(mem, root, 4, page).Some? && (own ==> e.address !in tree)
    requires var s := Slot(mem, root, 4, page).value;
             s.0 in tree && tree[s.0].level == 1 && tree' == LeafTree(mem, tree, s.0, s.1, e, own)
    requires forall r :: (r != root || own || !e.present || !Lower(page)) && OwnsData(mem, tree, r) ==> OwnsData(mem', tree', r)
    requires e.present
    ensures Mapped(mem0, tree0, mem', tree', root, page, e.address, own, added)
  {
    hide WellFormed, Grows, OwnsData, Slot, SpaceFrames, LeafTree, Walk;
    var s := Slot(mem, root, 4, page).value;
    RootsKept(mem0, tree0, mem, tree, space);
    RootSpace(mem, tree, root);
    SlotInTree(mem, tree, root, 4, page);
    forall r | OwnsData(mem0, tree0, r) ensures OwnsData(mem, tree, r) {
      GrowsOwnership(mem0, tree0, mem, tree, space, r, page);
    }
    forall r: nat | IsRoot(tree0, r)
      ensures SpaceFrames(tree', r) == if space == Some(r)
        then SpaceFrames(tree0, r) + added - LeafHeld(mem, tree, s.0, s.1) + (if own then {e.address} else {})
        else SpaceFrames(tree0, r)
    {
      SpaceAfterLeaf(mem, tree, s.0, s.1, e, own, r);
      SpaceAfterGrowth(mem0, tree0, mem, tree, space, r);
    }
    if own && Lower(page) && OwnsData(mem0, tree0, root) {
      GrowsOwnership(mem0, tree0, mem, tree, space, root, page);
      LeafHeldIsHeld(mem, tree, root, page);
      HeldIsOld(mem0, tree0, root, page);
      assert LeafHeld(mem, tree, s.0, s.1) !! added;
    }
  }

  lemma GrowsOwnership(mem: Memory, tree: Tree, mem': Memory, tree': Tree, space: Option<nat>, r: nat, page: nat)
    requires Grows(mem, tree, mem', tree', space) && OwnsData(mem, tree, r)
    ensures OwnsData(mem', tree', r)
    ensures IsRoot(tree, r) ==> HeldFrame(mem', r, page) == HeldFrame(mem, r, page)
  {
    hide OwnsData, WellFormed, Walk;
    assert IsRoot(tree, r) ==> Translate(mem', r, page) == Translate(mem, r, page);
  }

  lemma SpaceAfterGrowth(mem: Memory, tree: Tree, mem': Memory, tree': Tree, space: Option<nat>, r: nat)
    requires Grows(mem, tree, mem', tree', space)
    ensures SpaceFrames(tree', r) == SpaceFrames(tree, r) + if space == Some(r) then tree'.Keys - tree.Keys else {}
  {
    hide OwnsData, WellFormed, Walk;
  }

  ghost function LeafHeld(mem: Memory, tree: Tree, t: nat, i: nat): set<nat>
    requires t in tree && tree[t].level > 0
  {
    tree.Keys - Dropped(mem, tree, t, i).Keys
  }

  lemma LeafHeldIsHeld(mem: Memory, tree: Tree, root: nat, page: nat)
    requires WellFormed(mem, tree) && IsRoot(tree, root) && Lower(page) && OwnsData(mem, tree, root)
    requires Slot(mem, root, 4, page).Some?
    ensures var s := Slot(mem, root, 4, page).value;
      s.0 in tree && tree[s.0].level == 1 && LeafHeld(mem, tree, s.0, s.1) == HeldFrame(mem, root, page)
  {
    RootSpace(mem, tree, root);
    SlotInTree(mem, tree, root, 4, page);
    var s := Slot(mem, root, 4, page).value;
    assert LinkOkAtLeaf(mem, tree, s.0, s.1);
  }

  lemma SpaceAfterLeaf(mem: Memory, tree: Tree, t: nat, i: nat, e: Pml, own: bool, r: nat)
    requires t in tree && tree[t].level == 1 && (own ==> e.address !in tree)
    ensures SpaceFrames(LeafTree(mem, tree, t, i, e, own), r) ==
      if tree[t].space == Some(r) then SpaceFrames(tree, r) - LeafHeld(mem, tree, t, i) + (if own then {e.address} else {})
      else SpaceFrames(tree, r)
  {
  }

  lemma HeldIsOld(mem: Memory, tree: Tree, root: nat, page: nat)
    requires WellFormed(mem, tree) && IsRoot(tree, root) && Lower(page) && OwnsData(mem, tree, root)
    ensures HeldFrame(mem, root, page) <= SpaceFrames(tree, root) <= tree.Keys
  {
    if Slot(mem, root, 4, page).Some? {
      RootSpace(mem, tree, root);
      SlotInTree(mem, tree, root, 4, page);
      var s := Slot(mem, root, 4, page).value;
      assert LinkOkAtLeaf(mem, tree, s.0, s.1);
    }
  }

  /** The frame a page maps to, if any. */
  ghost function HeldFrame(mem: Memory, root: nat, page: nat): set<nat> {
    if Translate(mem, root, page).Some? then {Translate(mem, root, page).value.address} else {}
  }

  /** Between mem and mem', the page `page` of `root` gets entry e, in every space that reaches
      it through the same tables; all other translations stay. */
  ghost predicate Updates(mem: Memory, tree: Tree, mem': Memory, root: nat, page: nat, e: Pml) {
    forall r, q: nat :: IsRoot(tree, r) && q < PAGES ==>
      Translate(mem', r, q) ==
      if q == page && SamePath(mem, root, r, page) then (if e.present then Some(e) else None) else Translate(mem, r, q)
  }

  lemma EntryWriteUpdates(mem: Memory, tree: Tree, root: nat, page: nat, e: Pml)
    requires WellFormed(mem, tree) && IsRoot(tree, root) && page < PAGES && Slot(mem, root, 4, page).Some?
    ensures var s := Slot(mem, root, 4, page).value;
            IsTable(mem, s.0) && s.1 < ENTRIES && Updates(mem, tree, WithEntry(mem, s.0, s.1, e), root, page, e)
  {
    hide Slot, Walk, WellFormed, SamePath;
    WriteUpdatesOnePage(mem, tree, root, page, e, root, page);
    var s := Slot(mem, root, 4, page).value;
    var mem' := WithEntry(mem, s.0, s.1, e);
    forall r, q: nat | IsRoot(tree, r) && q < PAGES
      ensures Translate(mem', r, q) ==
        if q == page && SamePath(mem, root, r, page) then (if e.present then Some(e) else None) else Translate(mem, r, q)
    {
      WriteUpdatesOnePage(mem, tree, root, page, e, r, q);
    }
  }

  lemma RootSpace(mem: Memory, tree: Tree, root: nat)
    requires WellFormed(mem, tree) && IsRoot(tree, root)
    ensures tree[root].space == Some(root)
  {
    assert NodeOk(mem, tree, root);
  }


  lemma GrowsSelf(mem: Memory, tree: Tree, space: Option<nat>)
    requires WellFormed(mem, tree)
    ensures Grows(mem, tree, mem, tree, space)
  {
  }

  lemma GrowsWellFormed(mem: Memory, tree: Tree, mem': Memory, tree': Tree, space: Option<nat>)
    requires Grows(mem, tree, mem', tree', space)
    ensures WellFormed(mem', tree') && |mem'| == |mem|
    ensures forall f :: f in tree ==> f in tree' && tree'[f] == tree[f]
  {
  }
}

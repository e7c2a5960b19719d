/** The search for free pages, and mapping pages to frames that belong to one space. */
module AddressSpace {
  import opened Common
  import opened FirstFit
  import opened Physical
  import opened PageTables
  import opened Mmu

  // ----- searching for free pages -----

  function PageNumber(i4: nat, i3: nat, i2: nat, i1: nat): nat {
    ((i4 * 512 + i3) * 512 + i2) * 512 + i1
  }

  lemma PageNumberIndices(i4: nat, i3: nat, i2: nat, i1: nat)
    requires i4 < 512 && i3 < 512 && i2 < 512 && i1 < 512
    ensures var p := PageNumber(i4, i3, i2, i1);
      p < PAGES && Index(p, 4) == i4 && Index(p, 3) == i3 && Index(p, 2) == i2 && Index(p, 1) == i1
  {
    var p2 := i4 * 512 + i3;
    var p1 := p2 * 512 + i2;
    var p := p1 * 512 + i1;
    LowDigit(i4, i3);
    LowDigit(p2, i2);
    LowDigit(p1, i1);
    Quotients(p, p1, p2, i4);
  }

  lemma LowDigit(a: nat, b: nat)
    requires b < 512
    ensures (a * 512 + b) / 512 == a && (a * 512 + b) % 512 == b
  {
  }

  lemma Quotients(p: nat, p1: nat, p2: nat, p3: nat)
    requires p / 512 == p1 && p1 / 512 == p2 && p2 / 512 == p3 && p3 < 512
    ensures p / 0x4_0000 == p2 && p / 0x800_0000 == p3 && p < PAGES && p3 % 512 == p3
  {
    assert p2 * 0x4_0000 <= p < (p2 + 1) * 0x4_0000;
    assert p3 * 0x800_0000 <= p < (p3 + 1) * 0x800_0000;
  }

  /** The pages of a space that are not mapped, large pages included. */
  ghost function FreePages(mem: Memory, root: nat): set<int> {
    set p: int | 0 <= p < PAGES && Translate(mem, root, p).None? && Clear(mem, root, 4, p)
  }

  datatype Search = Found(page: nat) | OutOfFrames | OutOfAddresses

  /** Where a search starts: 0x400000 for user pages, 0xFFFF808000000000 for kernel pages. */
  function SearchSlot(user: bool): (nat, nat, nat) {
    if user then (0, 0, 2) else (257, 0, 0)
  }

  /** From where to where the directory at index i3 is searched. */
  function SearchFrom(user: bool, i3: nat): nat {
    PageNumber(SearchSlot(user).0, i3, SearchSlot(user).2, 0)
  }

  function SearchEnd(user: bool, i3: nat): nat {
    PageNumber(SearchSlot(user).0, i3, 512, 0)
  }

  /** The directory that is searched: the first one that is not a page of 1 GiB. */
  predicate Directory(mem: Memory, root: nat, user: bool, i3: nat) {
    && SearchSlot(user).1 <= i3 < 512 && !Huge(mem, root, SearchSlot(user).0, i3)
    && forall k :: SearchSlot(user).1 <= k < i3 ==> Huge(mem, root, SearchSlot(user).0, k)
  }

  /** The page begins the least free run in the directory that is searched. */
  ghost predicate FirstInDirectory(mem: Memory, root: nat, user: bool, page: nat, size: nat) {
    exists i3: nat :: Directory(mem, root, user, i3) && IsFirst(FreePages(mem, root), Anywhere(), SearchFrom(user, i3), SearchEnd(user, i3), page, size)
  }

  ghost predicate NoneInDirectory(mem: Memory, root: nat, user: bool, size: nat) {
    forall i3: nat :: Directory(mem, root, user, i3) ==> NoRun(FreePages(mem, root), Anywhere(), SearchFrom(user, i3), SearchEnd(user, i3), size)
  }

  /** In a lower half the first directory is searched. */
  lemma UserDirectory(mem: Memory, tree: Tree, root: nat)
    requires WellFormed(mem, tree) && IsRoot(tree, root)
    ensures forall i3: nat :: Directory(mem, root, true, i3) <==> i3 == 0
  {
    assert LinkOk(mem, tree, root, 0);
    var c := EntryAt(mem, root, 0).address;
    if Names(EntryAt(mem, root, 0)) {
      assert NodeOk(mem, tree, c);
      assert LinkOk(mem, tree, c, 0);
    }
    assert !Huge(mem, root, 0, 0);
  }

  /** Page base + i is governed by entry i of the table. */
  ghost predicate EntryFor(mem: Memory, root: nat, base: nat, table: nat, i: nat) {
    base + i < PAGES && Slot(mem, root, 4, base + i) == Some((table, i))
  }

  lemma {:induction false} SlotIsClear(mem: Memory, t: nat, level: nat, page: nat)
    requires 1 <= level <= 4 && Slot(mem, t, level, page).Some?
    ensures Clear(mem, t, level, page)
    decreases level
  {
    if level > 1 { SlotIsClear(mem, EntryAt(mem, t, Index(page, level)).address, level - 1, page); }
  }

  /** Looks at the 512 entries of one level-1 table. */
  method ScanTable(m: Mmu, root: nat, base: nat, table: nat, size: nat, found: nat, start: nat, ghost lo: int)
      returns (hit: bool, found': nat, start': nat)
    requires m.Valid() && IsRoot(m.tree, root)
    requires forall i: nat :: i < 512 ==> EntryFor(m.memory, root, base, table, i)
    requires size > 0 ==> Scanned(FreePages(m.memory, root), Anywhere(), lo, base, size, found)
    requires found > 0 ==> start == base - found
    ensures hit ==> size > 0 && IsFirst(FreePages(m.memory, root), Anywhere(), lo, base + 512, start', size)
    ensures !hit && size > 0 ==> Scanned(FreePages(m.memory, root), Anywhere(), lo, base + 512, size, found')
    ensures !hit && found' > 0 ==> start' == base + 512 - found'
  {
    hide Slot, UsedFrames, WellFormed, Scanned, IsFirst, Clear;
    ghost var free := FreePages(m.memory, root);
    found', start' := found, start;
    for i := 0 to 512
      invariant size > 0 ==> Scanned(free, Anywhere(), lo, base + i, size, found')
      invariant found' > 0 ==> start' == base + i - found'
    {
      assert EntryFor(m.memory, root, base, table, i);
      SlotIsClear(m.memory, root, 4, base + i);
      if EntryAt(m.memory, table, i).present {
        if size > 0 { StepBusy(free, Anywhere(), lo, base + i, size, found'); }
        found' := 0;
      } else {
        if size > 0 { StepFree(free, Anywhere(), lo, base + i, size, found'); ScanBound(free, Anywhere(), lo, base + i, size, found'); }
        if found' == 0 { start' := base + i; }
        found' := found' + 1;
        if found' == size {
          FirstLater(free, Anywhere(), lo, base + i + 1, base + 512, start', size);
          return true, found', start';
        }
      }
    }
    hit := false;
  }

  /** Since (mem, tree, used), only empty tables were added to `space`. */
  ghost predicate Grown(m: Mmu, mem: Memory, tree: Tree, used: set<nat>, space: Option<nat>)
    reads m, m.frames.bytes
  {
    && m.Valid() && Grows(mem, tree, m.memory, m.tree, space) && Added(tree, used, m.tree, m.frames.Used())
    && Doors(mem, tree, m.memory, false)
  }

  /** Every page of the range, large pages aside, has its level-1 table. */
  ghost predicate Tabled(mem: Memory, root: nat, lo: nat, hi: nat) {
    forall q: nat :: lo <= q < hi && Clear(mem, root, 4, q) ==> Slot(mem, root, 4, q).Some?
  }

  lemma TabledStays(mem: Memory, tree: Tree, mem': Memory, tree': Tree, space: Option<nat>, root: nat, lo: nat, hi: nat)
    requires Grows(mem, tree, mem', tree', space) && Doors(mem, tree, mem', false) && IsRoot(tree, root)
    requires Tabled(mem, root, lo, hi)
    ensures Tabled(mem', root, lo, hi)
  {
    hide Clear, Slot, Open, WellFormed, OwnsData, SamePath, Huge, Translate;
    forall q: nat | lo <= q < hi && Clear(mem', root, 4, q) ensures Slot(mem', root, 4, q).Some? {
      assert Clear(mem, root, 4, q);
      DoorsAt(mem, tree, mem', false, root, q);
    }
  }

  lemma TabledMore(mem: Memory, root: nat, lo: nat, base: nat, table: nat)
    requires Tabled(mem, root, lo, base) && forall i: nat :: i < 512 ==> EntryFor(mem, root, base, table, i)
    ensures Tabled(mem, root, lo, base + 512)
  {
    hide Clear, Slot;
    forall q: nat | lo <= q < base + 512 && Clear(mem, root, 4, q) ensures Slot(mem, root, 4, q).Some? {
      if q >= base { assert EntryFor(mem, root, base, table, q - base); }
    }
  }

  lemma TabledPast(mem: Memory, root: nat, i4: nat, c3: nat, i3: nat, c2: nat, i2: nat, lo: nat)
    requires i4 < 512 && i3 < 512 && i2 < 512 && Tabled(mem, root, lo, PageNumber(i4, i3, i2, 0))
    requires Names(EntryAt(mem, root, i4)) && EntryAt(mem, root, i4).address == c3
    requires Names(EntryAt(mem, c3, i3)) && EntryAt(mem, c3, i3).address == c2 && Large(mem, c2, i2)
    ensures Tabled(mem, root, lo, PageNumber(i4, i3, i2 + 1, 0))
  {
    hide PageNumber, Slot, Clear, Names, Large;
    NextNumber(i4, i3, i2);
    LargeOnWalk(mem, root, i4, c3, i3, c2, i2);
  }

  /** The large page is on the walks of its 512 pages. */
  lemma LargeOnWalk(mem: Memory, root: nat, i4: nat, c3: nat, i3: nat, c2: nat, i2: nat)
    requires i4 < 512 && i3 < 512 && i2 < 512
    requires Names(EntryAt(mem, root, i4)) && EntryAt(mem, root, i4).address == c3
    requires Names(EntryAt(mem, c3, i3)) && EntryAt(mem, c3, i3).address == c2 && Large(mem, c2, i2)
    ensures forall q: nat :: PageNumber(i4, i3, i2, 0) <= q < PageNumber(i4, i3, i2, 0) + 512 ==> !Clear(mem, root, 4, q)
  {
    hide PageNumber, Index;
    forall q: nat | PageNumber(i4, i3, i2, 0) <= q < PageNumber(i4, i3, i2, 0) + 512 ensures !Clear(mem, root, 4, q) {
      var i: nat := q - PageNumber(i4, i3, i2, 0);
      PageNumberPlus(i4, i3, i2, i);
      PageNumberIndices(i4, i3, i2, i);
      assert !Clear(mem, c2, 2, q) && !Clear(mem, c3, 3, q);
    }
  }

  lemma NextNumber(i4: nat, i3: nat, i2: nat)
    ensures PageNumber(i4, i3, i2 + 1, 0) == PageNumber(i4, i3, i2, 0) + 512
  {
  }

  lemma FoundTabled(mem: Memory, tree: Tree, mem': Memory, tree': Tree, space: Option<nat>, root: nat, from: nat, lo: nat, hi: nat, page: nat, size: nat)
    requires Grows(mem, tree, mem', tree', space) && IsRoot(tree, root)
    requires IsFirst(FreePages(mem, root), Anywhere(), lo, hi, page, size) && from <= lo && Tabled(mem', root, from, hi)
    ensures HasTables(mem', root, page, size)
  {
    hide Slot, Clear, Walk, WellFormed, OwnsData, SamePath, Huge;
    forall q: nat | page <= q < page + size ensures Slot(mem', root, 4, q).Some? {
      assert q in FreePages(mem, root);
    }
  }

  ghost predicate HasTables(mem: Memory, root: nat, page: nat, size: nat) {
    forall q: nat :: page <= q < page + size ==> Slot(mem, root, 4, q).Some?
  }

  method Install(m: Mmu, t: nat, i: nat, ghost mem: Memory, ghost tree: Tree, ghost used: set<nat>, ghost space: Option<nat>)
      returns (r: Option<nat>)
    requires Grown(m, mem, tree, used, space)
    requires t in m.tree && m.tree[t].level > 1 && i < ENTRIES && ChildNode(m.tree, t, i).space == space && !Large(m.memory, t, i)
    modifies m`memory, m`tree, m.frames.bytes
    ensures Grown(m, mem, tree, used, space) && Grows(old(m.memory), old(m.tree), m.memory, m.tree, space)
    ensures Doors(old(m.memory), old(m.tree), m.memory, false)
    ensures r.None? ==> m.OutOfFrames()
    ensures r.Some? ==> Names(EntryAt(m.memory, t, i)) && EntryAt(m.memory, t, i).address == r.value
    ensures r.Some? ==> r.value in m.tree && m.tree[r.value] == ChildNode(old(m.tree), t, i)
  {
    hide UsedFrames, WellFormed, Grows, Doors;
    ghost var mem1, tree1 := m.memory, m.tree;
    RootsKept(mem, tree, mem1, tree1, space);
    r := m.EnsureTable(t, i, false);
    RootsKept(mem1, tree1, m.memory, m.tree, space);
    GrowsCompose(mem, tree, mem1, tree1, m.memory, m.tree, space);
    DoorsCompose(mem, tree, mem1, tree1, m.memory, false);
  }

  lemma PageNumberPlus(i4: nat, i3: nat, i2: nat, i: nat)
    ensures PageNumber(i4, i3, i2, i) == PageNumber(i4, i3, i2, 0) + i
  {
  }

  lemma SlotsOfTable(mem: Memory, tree: Tree, root: nat, i4: nat, c3: nat, i3: nat, c2: nat, i2: nat, c1: nat)
    requires WellFormed(mem, tree) && IsRoot(tree, root) && i4 < 512 && i3 < 512 && i2 < 512
    requires Names(EntryAt(mem, root, i4)) && EntryAt(mem, root, i4).address == c3
    requires Names(EntryAt(mem, c3, i3)) && EntryAt(mem, c3, i3).address == c2
    requires Names(EntryAt(mem, c2, i2)) && EntryAt(mem, c2, i2).address == c1
    ensures forall i: nat :: i < 512 ==> EntryFor(mem, root, PageNumber(i4, i3, i2, 0), c1, i)
  {
    hide WellFormed, Slot, Index;
    forall i: nat | i < 512
      ensures EntryFor(mem, root, PageNumber(i4, i3, i2, 0), c1, i)
    {
      PageNumberIndices(i4, i3, i2, i);
      PageNumberPlus(i4, i3, i2, i);
      hide PageNumber;
      SlotAlong(mem, tree, root, c3, c2, c1, PageNumber(i4, i3, i2, i));
    }
  }

  /** Scans a page directory from entry i2 on. */
  method ScanDirectory(m: Mmu, root: nat, i4: nat, c3: nat, i3: nat, c2: nat, from: nat, size: nat, ghost lo: nat,
                       ghost mem: Memory, ghost tree: Tree, ghost used: set<nat>, ghost space: Option<nat>)
      returns (r: Search)
    requires Grown(m, mem, tree, used, space) && IsRoot(tree, root)
    requires i4 < 512 && i3 < 512 && from <= 512 && lo == PageNumber(i4, i3, from, 0)
    requires Names(EntryAt(m.memory, root, i4)) && EntryAt(m.memory, root, i4).address == c3
    requires c3 in m.tree && m.tree[c3].level == 3
    requires Names(EntryAt(m.memory, c3, i3)) && EntryAt(m.memory, c3, i3).address == c2
    requires c2 in m.tree && m.tree[c2].level == 2 && m.tree[c2].space == space
    modifies m`memory, m`tree, m.frames.bytes
    ensures Grown(m, mem, tree, used, space) && Grows(old(m.memory), old(m.tree), m.memory, m.tree, space)
    ensures r.OutOfFrames? ==> m.OutOfFrames()
    ensures r.Found? ==> size > 0 && IsFirst(FreePages(mem, root), Anywhere(), lo, PageNumber(i4, i3, 512, 0), r.page, size)
    ensures r.Found? ==> HasTables(m.memory, root, r.page, size)
    ensures r.OutOfAddresses? && size > 0 ==> NoRun(FreePages(mem, root), Anywhere(), lo, PageNumber(i4, i3, 512, 0), size)
  {
    hide UsedFrames, WellFormed, Grows, Slot, Scanned, IsFirst, NoRun, Walk, Clear, FreePages, Doors, Tabled, HasTables;
    var i2, found, start := from, 0, 0;
    ghost var free := FreePages(mem, root);
    ScanStart(free, Anywhere(), lo, size);
    ghost var mem1, tree1 := m.memory, m.tree;
    RootsKept(mem, tree, mem1, tree1, space);
    GrowsSelf(mem1, tree1, space);
    TabledNone(mem1, root, lo);
    while i2 < 512
      invariant from <= i2 <= 512
      invariant Grown(m, mem, tree, used, space) && Grows(mem1, tree1, m.memory, m.tree, space)
      invariant size > 0 ==> Scanned(free, Anywhere(), lo, PageNumber(i4, i3, i2, 0), size, found)
      invariant found > 0 ==> start == PageNumber(i4, i3, i2, 0) - found
      invariant Tabled(m.memory, root, lo, PageNumber(i4, i3, i2, 0))
    {
      ghost var mem2, tree2 := m.memory, m.tree;
      RootsKept(mem1, tree1, mem2, tree2, space);
      LargeIfSize(mem2, tree2, c2, i2);
      if EntryAt(m.memory, c2, i2).size {
        EntryKept(mem1, tree1, mem2, tree2, space, root, i4);
        EntryKept(mem1, tree1, mem2, tree2, space, c3, i3);
        PassLarge(mem, tree, mem2, tree2, space, root, i4, c3, i3, c2, i2, size, found, lo);
        TabledPast(mem2, root, i4, c3, i3, c2, i2, lo);
        found := 0;
        i2 := i2 + 1;
        continue;
      }
      var c1 := Install(m, c2, i2, mem, tree, used, space);
      GrowsCompose(mem1, tree1, mem2, tree2, m.memory, m.tree, space);
      if c1.None? { return OutOfFrames; }
      EntryKept(mem1, tree1, m.memory, m.tree, space, root, i4);
      EntryKept(mem1, tree1, m.memory, m.tree, space, c3, i3);
      RootsKept(mem, tree, m.memory, m.tree, space);
      SlotsOfTable(m.memory, m.tree, root, i4, c3, i3, c2, i2, c1.value);
      SameFreePages(mem, tree, m.memory, m.tree, space, root);
      TabledStays(mem2, tree2, m.memory, m.tree, space, root, lo, PageNumber(i4, i3, i2, 0));
      TabledMore(m.memory, root, lo, PageNumber(i4, i3, i2, 0), c1.value);
      NextNumber(i4, i3, i2);
      var hit;
      hit, found, start := ScanTable(m, root, PageNumber(i4, i3, i2, 0), c1.value, size, found, start, lo);
      i2 := i2 + 1;
      if hit {
        FoundTabled(mem, tree, m.memory, m.tree, space, root, lo, lo, PageNumber(i4, i3, i2, 0), start, size);
        FirstLater(free, Anywhere(), lo, PageNumber(i4, i3, i2, 0), PageNumber(i4, i3, 512, 0), start, size);
        return Found(start);
      }
    }
    if size > 0 { ScannedAll(free, Anywhere(), lo, PageNumber(i4, i3, 512, 0), size, found); }
    r := OutOfAddresses;
  }

  lemma TabledNone(mem: Memory, root: nat, lo: nat)
    ensures Tabled(mem, root, lo, lo)
  {
  }

  /** No page under a large page is free. */
  lemma UnderLarge(mem: Memory, root: nat, i4: nat, c3: nat, i3: nat, c2: nat, i2: nat)
    requires i4 < 512 && i3 < 512 && i2 < 512
    requires Names(EntryAt(mem, root, i4)) && EntryAt(mem, root, i4).address == c3
    requires Names(EntryAt(mem, c3, i3)) && EntryAt(mem, c3, i3).address == c2 && Large(mem, c2, i2)
    ensures forall p: int :: PageNumber(i4, i3, i2, 0) <= p < PageNumber(i4, i3, i2, 0) + 512 ==> p !in FreePages(mem, root)
  {
    hide PageNumber, Walk, Clear, Names, Large;
    LargeOnWalk(mem, root, i4, c3, i3, c2, i2);
  }

  lemma PassLarge(mem: Memory, tree: Tree, mem': Memory, tree': Tree, space: Option<nat>, root: nat,
                  i4: nat, c3: nat, i3: nat, c2: nat, i2: nat, size: nat, found: nat, lo: int)
    requires Grows(mem, tree, mem', tree', space) && IsRoot(tree, root) && i4 < 512 && i3 < 512 && i2 < 512
    requires Names(EntryAt(mem', root, i4)) && EntryAt(mem', root, i4).address == c3
    requires Names(EntryAt(mem', c3, i3)) && EntryAt(mem', c3, i3).address == c2 && Large(mem', c2, i2)
    requires size > 0 ==> Scanned(FreePages(mem, root), Anywhere(), lo, PageNumber(i4, i3, i2, 0), size, found)
    ensures size > 0 ==> Scanned(FreePages(mem, root), Anywhere(), lo, PageNumber(i4, i3, i2 + 1, 0), size, 0)
  {
    hide Grows, Scanned, FreePages;
    UnderLarge(mem', root, i4, c3, i3, c2, i2);
    SameFreePages(mem, tree, mem', tree', space, root);
    if size > 0 { ManyBusy(FreePages(mem, root), Anywhere(), lo, PageNumber(i4, i3, i2, 0), size, found, 512); }
  }

  lemma {:induction false} ManyBusy(free: set<int>, start: int -> bool, lo: int, cur: int, n: int, found: int, k: nat)
    requires Scanned(free, start, lo, cur, n, found) && k > 0
    requires forall p :: cur <= p < cur + k ==> p !in free
    ensures Scanned(free, start, lo, cur + k, n, 0)
    decreases k
  {
    hide Scanned;
    StepBusy(free, start, lo, cur, n, found);
    if k > 1 { ManyBusy(free, start, lo, cur + 1, n, 0, k - 1); }
  }

  lemma SameFreePages(mem: Memory, tree: Tree, mem': Memory, tree': Tree, space: Option<nat>, root: nat)
    requires Grows(mem, tree, mem', tree', space) && IsRoot(tree, root)
    ensures FreePages(mem', root) == FreePages(mem, root)
  {
    hide Walk, WellFormed, SamePath, OwnsData, Clear;
    forall p: nat ensures Translate(mem', root, p) == Translate(mem, root, p) && (Clear(mem', root, 4, p) <==> Clear(mem, root, 4, p)) {
    }
  }

  /** Installs the directory at index i3, if need be, and scans it from entry i2 on. */
  method SearchDirectory(m: Mmu, root: nat, i4: nat, c3: nat, i3: nat, i2: nat, size: nat,
                         ghost mem: Memory, ghost tree: Tree, ghost used: set<nat>, ghost space: Option<nat>)
      returns (r: Search)
    requires Grown(m, mem, tree, used, space) && IsRoot(tree, root) && i4 < 512 && i3 < 512 && i2 <= 512
    requires Names(EntryAt(m.memory, root, i4)) && EntryAt(m.memory, root, i4).address == c3
    requires c3 in m.tree && m.tree[c3].level == 3 && m.tree[c3].space == space && !Large(m.memory, c3, i3)
    modifies m`memory, m`tree, m.frames.bytes
    ensures Grown(m, mem, tree, used, space)
    ensures Names(EntryAt(m.memory, root, i4)) && EntryAt(m.memory, root, i4).address == c3
    ensures c3 in m.tree && m.tree[c3].level == 3 && m.tree[c3].space == space
    ensures r.OutOfFrames? ==> m.OutOfFrames()
    ensures r.Found? ==> HasTables(m.memory, root, r.page, size)
    ensures var lo, hi := PageNumber(i4, i3, i2, 0), PageNumber(i4, i3, 512, 0);
      && (r.Found? ==> size > 0 && IsFirst(FreePages(mem, root), Anywhere(), lo, hi, r.page, size))
      && (r.OutOfAddresses? && size > 0 ==> NoRun(FreePages(mem, root), Anywhere(), lo, hi, size))
  {
    hide UsedFrames, WellFormed, Grows, IsFirst, NoRun, FreePages, Doors, HasTables;
    RootsKept(mem, tree, m.memory, m.tree, space);
    ghost var mem1, tree1 := m.memory, m.tree;
    var c2 := Install(m, c3, i3, mem, tree, used, space);
    ghost var mem2, tree2 := m.memory, m.tree;
    RootsKept(mem1, tree1, mem2, tree2, space);
    EntryKept(mem1, tree1, mem2, tree2, space, root, i4);
    if c2.None? { return OutOfFrames; }
    r := ScanDirectory(m, root, i4, c3, i3, c2.value, i2, size, PageNumber(i4, i3, i2, 0), mem, tree, used, space);
    RootsKept(mem2, tree2, m.memory, m.tree, space);
    EntryKept(mem2, tree2, m.memory, m.tree, space, root, i4);
  }

  lemma SameHuge(mem: Memory, tree: Tree, mem': Memory, tree': Tree, space: Option<nat>, root: nat)
    requires Grows(mem, tree, mem', tree', space) && IsRoot(tree, root)
    ensures forall j, k: nat :: Huge(mem', root, j, k) <==> Huge(mem, root, j, k)
  {
    hide Walk, SamePath, OwnsData, Clear, Huge, WellFormed;
  }

  /** The loops of findFreePages. The level-3 and level-2 indices are not reset
      between outer iterations, so only the first page directory is searched, pages of 1 GiB passed over;
      everything after it only gets empty tables installed on the way to the panic. */
  method SearchSpace(m: Mmu, size: nat, user: bool, root: nat) returns (r: Search)
    requires m.Valid() && IsRoot(m.tree, root)
    modifies m`memory, m`tree, m.frames.bytes
    ensures Grown(m, old(m.memory), old(m.tree), old(m.frames.Used()), if user then Some(root) else None)
    ensures r.OutOfFrames? ==> m.OutOfFrames()
    ensures r.Found? ==> size > 0 && FirstInDirectory(old(m.memory), root, user, r.page, size)
    ensures r.OutOfAddresses? && size > 0 ==> NoneInDirectory(old(m.memory), root, user, size)
    ensures r.Found? ==> HasTables(m.memory, root, r.page, size)
  {
    hide UsedFrames, WellFormed, Grows, IsFirst, NoRun, FreePages, Huge, NoneInDirectory, FirstInDirectory, Directory, Doors, HasTables;
    ghost var mem, tree, used, space := m.memory, m.tree, m.frames.Used(), if user then Some(root) else None;
    GrowsSelf(mem, tree, space);
    DoorsSelf(mem, tree, false);
    var (i4, i3, i2) := SearchSlot(user);
    var maxPml4 := if user then 256 else 512;
    PassedNone(mem, root, user);
    while i4 < maxPml4
      invariant SearchSlot(user).0 <= i4 && i3 <= 512 && i2 <= 512
      invariant Grown(m, mem, tree, used, space)
      invariant i2 == 512 || (i2 == SearchSlot(user).2 && Passed(mem, root, user, i3) && (i4 == SearchSlot(user).0 || i3 == 512))
      invariant i2 == 512 && size > 0 ==> NoneInDirectory(mem, root, user, size)
      decreases maxPml4 - i4
    {
      RootsKept(mem, tree, m.memory, m.tree, space);
      RootSpace(m.memory, m.tree, root);
      NeverLarge(m.memory, m.tree, root, i4);
      var c3 := Install(m, root, i4, mem, tree, used, space);
      if c3.None? { return OutOfFrames; }
      while i3 < 512
        invariant i3 <= 512 && i2 <= 512
        invariant Grown(m, mem, tree, used, space)
        invariant i2 == 512 || (i2 == SearchSlot(user).2 && Passed(mem, root, user, i3) && (i4 == SearchSlot(user).0 || i3 == 512))
        invariant i2 == 512 && size > 0 ==> NoneInDirectory(mem, root, user, size)
        invariant Names(EntryAt(m.memory, root, i4)) && EntryAt(m.memory, root, i4).address == c3.value
        invariant c3.value in m.tree && m.tree[c3.value].level == 3 && m.tree[c3.value].space == space
      {
        RootsKept(mem, tree, m.memory, m.tree, space);
        HugeHere(mem, tree, m.memory, m.tree, space, root, i4, c3.value, i3);
        LargeIfSize(m.memory, m.tree, c3.value, i3);
        if EntryAt(m.memory, c3.value, i3).size {
          if i2 != 512 { PassedOne(mem, root, user, i3); }
          i3 := i3 + 1;
          continue;
        }
        r := SearchDirectory(m, root, i4, c3.value, i3, i2, size, mem, tree, used, space);
        if i2 == 512 {
          if r.Found? { NothingFirst(FreePages(mem, root), Anywhere(), PageNumber(i4, i3, 512, 0), r.page, size); }
        } else {
          Searched(mem, root, user, i3, r, size);
        }
        if !r.OutOfAddresses? { return; }
        i2 := 512;
        i3 := i3 + 1;
      }
      i4 := i4 + 1;
    }
    if i2 != 512 { AllPassed(mem, root, user, i3, size); }
    r := OutOfAddresses;
  }

  // ----- the search in terms of addresses -----

  ghost predicate AllUnmapped(mem: Memory, root: nat, page: nat, size: nat) {
    forall q: nat :: page <= q < page + size ==> Translate(mem, root, q).None?
  }

  /** The page begins the least run of unmapped pages from address 0x400000 up to 1 GiB. */
  ghost predicate LeastUserRun(mem: Memory, root: nat, page: nat, size: nat) {
    && 0x40_0000 / 4096 <= page && page + size <= 0x4000_0000 / 4096 && AllUnmapped(mem, root, page, size)
    && forall b: nat :: 0x40_0000 / 4096 <= b < page ==> !AllUnmapped(mem, root, b, size)
  }

  /** The page begins the least run of free pages in the first GiB, from address 0xFFFF808000000000 on, that is not
      one large page. */
  ghost predicate LeastKernelRun(mem: Memory, root: nat, page: nat, size: nat) {
    exists g: nat ::
      && FirstGiB(mem, root, g) && KernelPage(g) <= page && page + size <= KernelPage(g) + 0x4000_0000 / 4096
      && AllFree(mem, root, page, size)
      && forall b: nat :: KernelPage(g) <= b < page ==> !AllFree(mem, root, b, size)
  }

  ghost predicate NoKernelRun(mem: Memory, root: nat, size: nat) {
    forall g: nat, b: nat :: FirstGiB(mem, root, g) && KernelPage(g) <= b && b + size <= KernelPage(g) + 0x4000_0000 / 4096 ==> !AllFree(mem, root, b, size)
  }

  ghost predicate FirstGiB(mem: Memory, root: nat, g: nat) {
    g < 512 && !Huge(mem, root, 257, g) && forall k: nat :: k < g ==> Huge(mem, root, 257, k)
  }

  function KernelPage(g: nat): nat {
    0xFFFF_8080_0000_0000 / 4096 % PAGES + g * (0x4000_0000 / 4096)
  }

  ghost predicate AllFree(mem: Memory, root: nat, page: nat, size: nat) {
    forall q: nat :: page <= q < page + size ==> Translate(mem, root, q).None? && Clear(mem, root, 4, q)
  }

  /** The slots where the searches start and end, as addresses. */
  lemma SearchAddresses(g: nat)
    requires g < 512
    ensures SearchFrom(true, 0) == 0x40_0000 / 4096 && SearchEnd(true, 0) == 0x4000_0000 / 4096
    ensures SearchFrom(false, g) == 0xFFFF_8080_0000_0000 / 4096 % PAGES + g * (0x4000_0000 / 4096) == KernelPage(g)
    ensures SearchEnd(false, g) == SearchFrom(false, g) + 0x4000_0000 / 4096
    ensures SearchSlot(false).0 == 257 && SearchSlot(false).1 == 0
  {
  }

  lemma RunAllFree(mem: Memory, root: nat, b: nat, size: nat)
    requires b + size <= PAGES
    ensures IsRun(FreePages(mem, root), Anywhere(), b, size) <==> AllFree(mem, root, b, size)
  {
    hide Walk, Clear;
    if IsRun(FreePages(mem, root), Anywhere(), b, size) {
      forall q: nat | b <= q < b + size ensures Translate(mem, root, q).None? && Clear(mem, root, 4, q) {
        assert q in FreePages(mem, root);
      }
    }
  }

  lemma UserAllFree(mem: Memory, tree: Tree, root: nat, b: nat, size: nat)
    requires WellFormed(mem, tree) && IsRoot(tree, root) && b + size <= LOWER_PAGES
    ensures AllFree(mem, root, b, size) <==> AllUnmapped(mem, root, b, size)
  {
    hide Walk, Clear;
    forall q: nat | b <= q < b + size ensures Clear(mem, root, 4, q) {
      LowerPage(q);
      LowerIsClear(mem, tree, root, 4, q);
    }
  }

  lemma UserRun(mem: Memory, tree: Tree, root: nat, b: nat, size: nat)
    requires WellFormed(mem, tree) && IsRoot(tree, root) && b + size <= LOWER_PAGES
    ensures IsRun(FreePages(mem, root), Anywhere(), b, size) <==> AllUnmapped(mem, root, b, size)
  {
    hide IsRun, AllFree, AllUnmapped, FreePages, WellFormed, Walk;
    RunAllFree(mem, root, b, size);
    UserAllFree(mem, tree, root, b, size);
  }

  lemma FirstMeans(free: set<int>, from: nat, hi: nat, page: nat, size: nat)
    requires IsFirst(free, Anywhere(), from, hi, page, size)
    ensures from <= page && page + size <= hi && IsRun(free, Anywhere(), page, size)
    ensures forall b: nat :: from <= b < page ==> !IsRun(free, Anywhere(), b, size)
  {
    hide IsRun;
  }

  lemma FoundForUser(mem: Memory, tree: Tree, root: nat, page: nat, size: nat)
    requires WellFormed(mem, tree) && IsRoot(tree, root) && FirstInDirectory(mem, root, true, page, size)
    ensures LeastUserRun(mem, root, page, size)
  {
    hide Walk, Clear, WellFormed, IsFirst, IsRun, FreePages, SearchFrom, SearchEnd, SearchSlot, Directory, AllFree, AllUnmapped, KernelPage;
    UserDirectory(mem, tree, root);
    var g: nat :| Directory(mem, root, true, g) && IsFirst(FreePages(mem, root), Anywhere(), SearchFrom(true, g), SearchEnd(true, g), page, size);
    SearchAddresses(0);
    FirstMeans(FreePages(mem, root), SearchFrom(true, 0), SearchEnd(true, 0), page, size);
    UserRun(mem, tree, root, page, size);
    forall b: nat | SearchFrom(true, 0) <= b < page ensures !AllUnmapped(mem, root, b, size) { UserRun(mem, tree, root, b, size); }
  }

  lemma FoundForKernel(mem: Memory, root: nat, page: nat, size: nat)
    requires FirstInDirectory(mem, root, false, page, size)
    ensures LeastKernelRun(mem, root, page, size)
  {
    hide Walk, Clear, WellFormed, IsFirst, IsRun, FreePages, SearchFrom, SearchEnd, SearchSlot, Huge, AllFree, AllUnmapped, KernelPage;
    var g: nat :| Directory(mem, root, false, g) && IsFirst(FreePages(mem, root), Anywhere(), SearchFrom(false, g), SearchEnd(false, g), page, size);
    SearchAddresses(g);
    FirstMeans(FreePages(mem, root), SearchFrom(false, g), SearchEnd(false, g), page, size);
    assert FirstGiB(mem, root, g);
    KernelInside(g);
    RunAllFree(mem, root, page, size);
    forall b: nat | KernelPage(g) <= b < page ensures !AllFree(mem, root, b, size) { RunAllFree(mem, root, b, size); }
  }

  lemma KernelInside(g: nat)
    requires g < 512
    ensures KernelPage(g) + 0x4000_0000 / 4096 <= PAGES
  {
  }

  lemma NoneMeans(mem: Memory, tree: Tree, root: nat, b: nat, size: nat)
    requires WellFormed(mem, tree) && IsRoot(tree, root) && NoneInDirectory(mem, root, true, size)
    requires 0x40_0000 / 4096 <= b && b + size <= 0x4000_0000 / 4096
    ensures !AllUnmapped(mem, root, b, size)
  {
    hide Walk, Clear, WellFormed, IsRun, FreePages, SearchFrom, SearchEnd, SearchSlot, Huge, AllUnmapped, Directory;
    UserDirectory(mem, tree, root);
    SearchAddresses(0);
    UserRun(mem, tree, root, b, size);
    assert NoRun(FreePages(mem, root), Anywhere(), SearchFrom(true, 0), SearchEnd(true, 0), size) by { assert Directory(mem, root, true, 0); }
  }

  lemma NoneMeansKernel(mem: Memory, root: nat, size: nat)
    requires NoneInDirectory(mem, root, false, size)
    ensures NoKernelRun(mem, root, size)
  {
    hide Walk, Clear, IsRun, FreePages, SearchFrom, SearchEnd, SearchSlot, Huge, AllFree, KernelPage;
    forall g: nat, b: nat | FirstGiB(mem, root, g) && KernelPage(g) <= b && b + size <= KernelPage(g) + 0x4000_0000 / 4096 ensures !AllFree(mem, root, b, size) {
      SearchAddresses(g);
      KernelInside(g);
      RunAllFree(mem, root, b, size);
      assert Directory(mem, root, false, g);
      assert NoRun(FreePages(mem, root), Anywhere(), SearchFrom(false, g), SearchEnd(false, g), size);
    }
  }

  lemma SearchMeans(mem: Memory, tree: Tree, root: nat, user: bool, r: Search, size: nat)
    requires WellFormed(mem, tree) && IsRoot(tree, root) && !r.OutOfFrames?
    requires r.Found? ==> FirstInDirectory(mem, root, user, r.page, size)
    requires r.OutOfAddresses? && size > 0 ==> NoneInDirectory(mem, root, user, size)
    ensures r.Found? && user ==> LeastUserRun(mem, root, r.page, size)
    ensures r.Found? && !user ==> LeastKernelRun(mem, root, r.page, size)
    ensures r.OutOfAddresses? && user && size > 0 ==>
      forall b: nat :: 0x40_0000 / 4096 <= b && b + size <= 0x4000_0000 / 4096 ==> !AllUnmapped(mem, root, b, size)
    ensures r.OutOfAddresses? && !user && size > 0 ==> NoKernelRun(mem, root, size)
  {
    hide *;
    if r.Found? {
      if user { FoundForUser(mem, tree, root, r.page, size); } else { FoundForKernel(mem, root, r.page, size); }
    } else if user && size > 0 {
      forall b: nat | 0x40_0000 / 4096 <= b && b + size <= 0x4000_0000 / 4096 ensures !AllUnmapped(mem, root, b, size) {
        NoneMeans(mem, tree, root, b, size);
      }
    } else if size > 0 {
      NoneMeansKernel(mem, root, size);
    }
  }

  /** Finds `size` consecutive unmapped pages, in one GiB of addresses only. */
  method FindFreePages(m: Mmu, size: nat, user: bool, root: nat) returns (r: Search)
    requires m.Valid() && IsRoot(m.tree, root)
    modifies m`memory, m`tree, m.frames.bytes
    ensures Grown(m, old(m.memory), old(m.tree), old(m.frames.Used()), if user then Some(root) else None)
    ensures r.OutOfFrames? ==> m.OutOfFrames()
    ensures r.Found? ==> size > 0 && FirstInDirectory(old(m.memory), root, user, r.page, size) && HasTables(m.memory, root, r.page, size)
    ensures r.OutOfAddresses? && size > 0 ==> NoneInDirectory(old(m.memory), root, user, size)
    ensures r.Found? && user ==> LeastUserRun(old(m.memory), root, r.page, size)
    ensures r.Found? && !user ==> LeastKernelRun(old(m.memory), root, r.page, size)
    ensures r.OutOfAddresses? && user && size > 0 ==>
      forall b: nat :: 0x40_0000 / 4096 <= b && b + size <= 0x4000_0000 / 4096 ==> !AllUnmapped(old(m.memory), root, b, size)
    ensures r.OutOfAddresses? && !user && size > 0 ==> NoKernelRun(old(m.memory), root, size)
    ensures user && size > 0 && 0x40_0000 / 4096 + size <= 0x4000_0000 / 4096 && AllUnmapped(old(m.memory), root, 0x40_0000 / 4096, size) ==>
      r.OutOfFrames? || r == Found(0x40_0000 / 4096)
  {
    hide UsedFrames, WellFormed, Grows, Doors, FirstInDirectory, NoneInDirectory, HasTables, AllUnmapped, LeastKernelRun, NoKernelRun;
    ghost var mem, tree := m.memory, m.tree;
    r := SearchSpace(m, size, user, root);
    if !r.OutOfFrames? { SearchMeans(mem, tree, root, user, r, size); }
  }

  /** The entries before i3 are pages of 1 GiB. */
  predicate Passed(mem: Memory, root: nat, user: bool, i3: nat) {
    SearchSlot(user).1 <= i3 && forall k :: SearchSlot(user).1 <= k < i3 ==> Huge(mem, root, SearchSlot(user).0, k)
  }

  lemma PassedNone(mem: Memory, root: nat, user: bool)
    ensures Passed(mem, root, user, SearchSlot(user).1)
  {
  }

  lemma PassedOne(mem: Memory, root: nat, user: bool, i3: nat)
    requires Passed(mem, root, user, i3) && Huge(mem, root, SearchSlot(user).0, i3)
    ensures Passed(mem, root, user, i3 + 1)
  {
  }

  lemma AllPassed(mem: Memory, root: nat, user: bool, i3: nat, size: nat)
    requires Passed(mem, root, user, i3) && i3 >= 512
    ensures NoneInDirectory(mem, root, user, size)
  {
  }

  /** What the search of the directory means for the whole. */
  lemma Searched(mem: Memory, root: nat, user: bool, i3: nat, r: Search, size: nat)
    requires Passed(mem, root, user, i3) && i3 < 512 && !Huge(mem, root, SearchSlot(user).0, i3)
    requires r.Found? ==> IsFirst(FreePages(mem, root), Anywhere(), SearchFrom(user, i3), SearchEnd(user, i3), r.page, size)
    requires r.OutOfAddresses? && size > 0 ==> NoRun(FreePages(mem, root), Anywhere(), SearchFrom(user, i3), SearchEnd(user, i3), size)
    ensures r.Found? ==> FirstInDirectory(mem, root, user, r.page, size)
    ensures r.OutOfAddresses? && size > 0 ==> NoneInDirectory(mem, root, user, size)
  {
    hide IsFirst, NoRun, FreePages, SearchFrom, SearchEnd, Huge;
    assert Directory(mem, root, user, i3);
    forall j: nat | Directory(mem, root, user, j) ensures j == i3 {
      assert !(j < i3) && !(i3 < j);
    }
  }

  lemma LargeIfSize(mem: Memory, tree: Tree, t: nat, i: nat)
    requires WellFormed(mem, tree) && t in tree && tree[t].level > 1 && i < 512
    ensures EntryAt(mem, t, i).size <==> Large(mem, t, i)
  {
    assert LinkOk(mem, tree, t, i);
  }

  lemma NeverLarge(mem: Memory, tree: Tree, root: nat, i4: nat)
    requires WellFormed(mem, tree) && IsRoot(tree, root) && i4 < 512
    ensures !Large(mem, root, i4)
  {
    assert LinkOk(mem, tree, root, i4);
  }

  lemma HugeHere(mem: Memory, tree: Tree, mem': Memory, tree': Tree, space: Option<nat>, root: nat, i4: nat, c3: nat, i3: nat)
    requires Grows(mem, tree, mem', tree', space) && IsRoot(tree, root)
    requires Names(EntryAt(mem', root, i4)) && EntryAt(mem', root, i4).address == c3
    ensures Huge(mem, root, i4, i3) <==> Large(mem', c3, i3)
  {
    SameHuge(mem, tree, mem', tree', space, root);
  }

  lemma NothingFirst(free: set<int>, start: int -> bool, at: int, a: int, n: int)
    requires IsFirst(free, start, at, at, a, n)
    ensures n <= 0
  {
  }

  // ----- owned pages -----

  /** The frames in use that do not belong to the space. */
  ghost function Rest(m: Mmu, root: nat): set<nat>
    reads m, m.frames.bytes
  {
    m.frames.Used() - SpaceFrames(m.tree, root)
  }

  ghost predicate Owner(m: Mmu, root: nat)
    reads m, m.frames.bytes
  {
    m.Valid() && IsRoot(m.tree, root) && OwnsData(m.memory, m.tree, root)
  }

  const LOWER_PAGES: nat := 0x8_0000_0000

  lemma LowerPage(p: nat)
    requires p < PAGES
    ensures Lower(p) <==> p < LOWER_PAGES
  {
  }

  /** Maps a page to a frame kept for it. Mapping over a mapped page leaves the frame it held
      in use but owned by nobody. */
  method MapOwned(m: Mmu, frame: nat, page: nat, flags: Flags, root: nat) returns (ok: bool)
    requires Owner(m, root) && page < LOWER_PAGES
    requires frame in m.frames.Used() && frame < |m.memory| && frame !in m.tree
    modifies m`memory, m`tree, m.frames.bytes
    ensures m.Valid() && |m.memory| == old(|m.memory|)
    ensures !ok ==> m.OutOfFrames()
    ensures ok ==> Owner(m, root)
    ensures ok ==> Updates(old(m.memory), old(m.tree), m.memory, root, page, Leaf(frame, flags))
    ensures ok ==> Rest(m, root) == old(Rest(m, root)) - {frame} + HeldFrame(old(m.memory), root, page)
    ensures HeldFrame(old(m.memory), root, page) !! old(Rest(m, root))
    ensures HeldFrame(old(m.memory), root, page) <= old(m.tree.Keys)
    ensures old(m.frames.Used()) <= m.frames.Used()
    ensures m.tree.Keys <= old(m.tree.Keys) + {frame} + (m.frames.Used() - old(m.frames.Used()))
    ensures DataKept(old(m.memory), old(m.tree), old(m.frames.Used()), m.memory, m.tree)
    ensures (forall s :: IsRoot(m.tree, s) <==> IsRoot(old(m.tree), s)) && Doors(old(m.memory), old(m.tree), m.memory, Index(page, 4) < 128)
  {
    hide UsedFrames, WellFormed, OwnsData, SpaceFrames, Updates, HeldFrame, Lower, DataKept, Doors, Open;
    LowerPage(page);
    HeldIsOld(m.memory, m.tree, root, page);
    LowerIsClear(m.memory, m.tree, root, 4, page);
    ok := m.MapPage(frame, page, flags, root, true);
  }

  /** Maps a page to a frame allocated for it. */
  method MapFresh(m: Mmu, page: nat, flags: Flags, root: nat) returns (ok: bool, ghost frame: nat)
    requires Owner(m, root) && page < LOWER_PAGES
    modifies m`memory, m`tree, m.frames.bytes
    ensures m.Valid() && |m.memory| == old(|m.memory|)
    ensures !ok ==> m.OutOfFrames()
    ensures ok ==> Owner(m, root) && frame !in old(m.frames.Used()) && frame in m.frames.Used() && frame < |m.memory|
    ensures old(m.frames.Used()) <= m.frames.Used()
    ensures ok ==> Updates(old(m.memory), old(m.tree), m.memory, root, page, Leaf(frame, flags))
    ensures ok ==> Rest(m, root) == old(Rest(m, root)) + HeldFrame(old(m.memory), root, page)
    ensures HeldFrame(old(m.memory), root, page) !! old(Rest(m, root))
    ensures (forall s :: IsRoot(m.tree, s) <==> IsRoot(old(m.tree), s)) && Doors(old(m.memory), old(m.tree), m.memory, Index(page, 4) < 128)
  {
    hide UsedFrames, WellFormed, OwnsData, SpaceFrames, Updates, HeldFrame, Lower, DataKept, Doors;
    DoorsSelf(m.memory, m.tree, Index(page, 4) < 128);
    LowerPage(page);
    HeldIsOld(m.memory, m.tree, root, page);
    var f := m.GetFrame();
    frame := 0;
    if f.None? { return false, frame; }
    frame := f.value;
    ok := MapOwned(m, f.value, page, flags, root);
  }
}

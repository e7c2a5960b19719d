/** Four-level page tables as values: physical memory is a row of frames, a table frame holds
    512 entries, and an address space is named by the frame of its level-4 table. The tree is
    described by a ghost map that gives every table frame the one place it hangs from, which
    is what rules out aliasing. */
module PageTables {
  import opened Common
  import opened Physical

  datatype Flags = Flags(write: bool, user: bool, writeThrough: bool, noCache: bool, global: bool, nx: bool)

  /** The fields of the PML union that the code reads and writes; address is a frame number. */
  datatype Pml = Pml(present: bool, size: bool, address: nat, flags: Flags)

  const ABSENT := Pml(false, false, 0, Flags(false, false, false, false, false, false))

  /** The value of a word holding `physicalAddress | flags | 1`. */
  function Leaf(frame: nat, flags: Flags): Pml {
    Pml(true, false, frame, flags)
  }

  /** The value of a word holding `address | 7` or `address | 3`. */
  function Link(frame: nat, user: bool): Pml {
    Pml(true, false, frame, Flags(true, user, false, false, false, false))
  }

  datatype Content = Table(entries: seq<Pml>) | Bytes(data: seq<bv8>)

  type Memory = seq<Content>

  const ENTRIES: nat := 512

  function EmptyTable(): (c: Content)
    ensures c.Table? && |c.entries| == ENTRIES && forall i :: 0 <= i < ENTRIES ==> c.entries[i] == ABSENT
  {
    Table(seq(ENTRIES, _ => ABSENT))
  }

  predicate IsTable(mem: Memory, t: nat) {
    t < |mem| && mem[t].Table? && |mem[t].entries| == ENTRIES
  }

  function EntryAt(mem: Memory, t: nat, i: nat): Pml {
    if IsTable(mem, t) && i < ENTRIES then mem[t].entries[i] else ABSENT
  }

  function WithEntry(mem: Memory, t: nat, i: nat, e: Pml): Memory
    requires IsTable(mem, t) && i < ENTRIES
  {
    mem[t := Table(mem[t].entries[i := e])]
  }

  // ----- virtual pages -----

  /** A virtual page is bits 12 to 47 of an address, as one number. */
  const PAGES: nat := 0x10_0000_0000

  /** The nine bits of a page number that select an entry of a level-k table. */
  function Index(page: nat, level: nat): (i: nat)
    ensures i < ENTRIES
  {
    if level <= 1 then page % 512
    else if level == 2 then page / 512 % 512
    else if level == 3 then page / 0x4_0000 % 512
    else page / 0x800_0000 % 512
  }

  predicate Lower(page: nat) {
    Index(page, 4) < 256
  }

  lemma IndicesDeterminePage(p: nat, q: nat)
    requires p < PAGES && q < PAGES
    requires Index(p, 1) == Index(q, 1) && Index(p, 2) == Index(q, 2)
    requires Index(p, 3) == Index(q, 3) && Index(p, 4) == Index(q, 4)
    ensures p == q
  {
    hide Index;
    PageFromIndices(p);
    PageFromIndices(q);
  }

  lemma PageFromIndices(p: nat)
    requires p < PAGES
    ensures p == ((Index(p, 4) * 512 + Index(p, 3)) * 512 + Index(p, 2)) * 512 + Index(p, 1)
  {
    assert p / 0x800_0000 < 512;
    assert p / 0x4_0000 == p / 0x800_0000 * 512 + p / 0x4_0000 % 512;
    assert p / 512 == p / 0x4_0000 * 512 + p / 512 % 512;
  }

  // ----- the walk -----

  /** The slot of the level-1 entry for a page, or None where getPage returns null. */
  function Slot(mem: Memory, t: nat, level: nat, page: nat): Option<(nat, nat)>
    requires 1 <= level <= 4
    decreases level
  {
    if level == 1 then Some((t, Index(page, 1)))
    else
      var e := EntryAt(mem, t, Index(page, level));
      if !e.present || e.size then None else Slot(mem, e.address, level - 1, page)
  }

  /** What a walk from the table t finds for a page: its level-1 entry when that is present. */
  function Walk(mem: Memory, t: nat, level: nat, page: nat): Option<Pml>
    requires 1 <= level <= 4
  {
    var s := Slot(mem, t, level, page);
    if s.None? then None
    else
      var e := EntryAt(mem, s.value.0, s.value.1);
      if e.present then Some(e) else None
  }

  /** The abstract page map of the space with level-4 table `root`. */
  function Translate(mem: Memory, root: nat, page: nat): Option<Pml> {
    Walk(mem, root, 4, page)
  }

  /** No large page lies on the walk of a page. */
  predicate Clear(mem: Memory, t: nat, level: nat, page: nat)
    requires 1 <= level <= 4
    decreases level
  {
    level == 1 ||
    var e := EntryAt(mem, t, Index(page, level));
    !e.present || (!e.size && Clear(mem, e.address, level - 1, page))
  }

  /** Every table on the walk of a page lets the program through, to write as well. */
  predicate Open(mem: Memory, t: nat, level: nat, page: nat)
    requires 1 <= level <= 4
    decreases level
  {
    level == 1 ||
    var e := EntryAt(mem, t, Index(page, level));
    !e.present || (e.flags.user && e.flags.write && (e.size || Open(mem, e.address, level - 1, page)))
  }

  // ----- the shape of the trees -----

  /** Where a frame hangs: a level-4 table hangs nowhere; a level-3 table of the upper half may
      be shared by several spaces, always through the same slot; any other frame is named by
      one entry. */
  datatype Home = Root | Under(parent: nat, index: nat) | Shared(index: nat)

  /** level 4 to 1 are tables, 0 a data frame owned by its space. `space` is the root whose
      lower half holds the frame, None for the upper half. */
  datatype Node = Node(level: nat, space: Option<nat>, home: Home)

  type Tree = map<nat, Node>

  ghost function ChildNode(tree: Tree, t: nat, i: nat): Node
    requires t in tree && tree[t].level > 0
  {
    if tree[t].level == 4 && i >= 256 then Node(3, None, Shared(i))
    else Node(tree[t].level - 1, tree[t].space, Under(t, i))
  }

  /** Frame f is where its node says: it is a table unless it is data, and the entry it hangs
      from names it. */
  ghost predicate NodeOk(mem: Memory, tree: Tree, f: nat)
    requires f in tree
  {
    var n := tree[f];
    && f < |mem| && n.level <= 4
    && (n.level > 0 ==> IsTable(mem, f))
    && (n.level == 4 <==> n.home.Root?)
    && (n.level == 4 ==> n.space == Some(f))
    && (n.space.Some? ==> IsRoot(tree, n.space.value))
    && match n.home
       case Root => true
       case Shared(i) => n.level == 3 && n.space.None? && 256 <= i < ENTRIES
       case Under(p, i) =>
         && p in tree && tree[p].level == n.level + 1 && i < ENTRIES
         && n == ChildNode(tree, p, i)
         && Names(EntryAt(mem, p, i)) && EntryAt(mem, p, i).address == f
  }

  /** The entry names a frame of 4 KiB: a table, or data. */
  predicate Names(e: Pml) {
    e.present && !e.size
  }

  predicate Large(mem: Memory, t: nat, i: nat) {
    EntryAt(mem, t, i).present && EntryAt(mem, t, i).size
  }

  /** Entry k of the level-3 table below entry j of the root maps a page of 1 GiB. */
  predicate Huge(mem: Memory, root: nat, j: nat, k: nat) {
    Names(EntryAt(mem, root, j)) && Large(mem, EntryAt(mem, root, j).address, k)
  }

  /** An entry of a table above level 1 is absent, names a table of the tree hung there, or maps a large
      page, which only levels 2 and 3 of the upper half may do. */
  ghost predicate LinksOk(mem: Memory, tree: Tree, t: nat)
    requires t in tree
  {
    tree[t].level > 1 ==> forall i: nat :: i < ENTRIES ==> LinkOk(mem, tree, t, i)
  }

  ghost predicate LinkOk(mem: Memory, tree: Tree, t: nat, i: nat)
    requires t in tree && tree[t].level > 0
  {
    var e := EntryAt(mem, t, i);
    && (Names(e) ==> e.address in tree && tree[e.address] == ChildNode(tree, t, i))
    && (e.size ==> e.present && tree[t].space.None? && tree[t].level < 4)
  }

  ghost predicate WellFormed(mem: Memory, tree: Tree) {
    forall f :: f in tree ==> NodeOk(mem, tree, f) && LinksOk(mem, tree, f)
  }

  /** Every page mapped in the lower half of `root` has a data frame of its own. */
  ghost predicate OwnsData(mem: Memory, tree: Tree, root: nat) {
    forall t, i: nat :: t in tree && tree[t].level == 1 && tree[t].space == Some(root) && i < ENTRIES ==>
      LinkOkAtLeaf(mem, tree, t, i)
  }

  ghost predicate LinkOkAtLeaf(mem: Memory, tree: Tree, t: nat, i: nat)
    requires t in tree && tree[t].level > 0
  {
    var e := EntryAt(mem, t, i);
    e.present ==> e.address in tree && tree[e.address] == ChildNode(tree, t, i)
  }

  predicate IsRoot(tree: Tree, r: nat) {
    r in tree && tree[r].level == 4
  }

  // ----- walks and the tree -----

  /** No large page lies in a lower half. */
  lemma {:induction false} LowerIsClear(mem: Memory, tree: Tree, t: nat, level: nat, page: nat)
    requires WellFormed(mem, tree) && 1 <= level <= 4 && t in tree && tree[t].level == level
    requires if level == 4 then Lower(page) else tree[t].space.Some?
    ensures Clear(mem, t, level, page)
    decreases level
  {
    if level > 1 {
      assert LinkOk(mem, tree, t, Index(page, level)) && NodeOk(mem, tree, t);
      if EntryAt(mem, t, Index(page, level)).present {
        LowerIsClear(mem, tree, EntryAt(mem, t, Index(page, level)).address, level - 1, page);
      }
    }
  }

  /** A walk from a table of the tree ends at a level-1 table of the tree, in the same space. */
  lemma {:induction false} SlotInTree(mem: Memory, tree: Tree, t: nat, level: nat, page: nat)
    requires WellFormed(mem, tree) && 1 <= level <= 4
    requires t in tree && tree[t].level == level
    requires Slot(mem, t, level, page).Some?
    ensures var s := Slot(mem, t, level, page).value;
            s.0 in tree && tree[s.0].level == 1 && s.1 == Index(page, 1)
            && tree[s.0].space == if level == 4 && !Lower(page) then None else tree[t].space
    decreases level
  {
    if level > 1 {
      var i := Index(page, level);
      assert LinkOk(mem, tree, t, i);
      SlotInTree(mem, tree, EntryAt(mem, t, i).address, level - 1, page);
    }
  }

  /** No aliasing: two walks that end in one slot use the same indices all the way, and come
      from the same table unless they join in the shared upper half. */
  lemma {:induction false} SlotInjective(mem: Memory, tree: Tree, t: nat, u: nat, level: nat, p: nat, q: nat)
    requires WellFormed(mem, tree) && 1 <= level <= 4
    requires t in tree && tree[t].level == level && u in tree && tree[u].level == level
    requires Slot(mem, t, level, p).Some? && Slot(mem, t, level, p) == Slot(mem, u, level, q)
    ensures forall k :: 1 <= k <= level ==> Index(p, k) == Index(q, k)
    ensures t == u || (level == 4 && !Lower(p) && EntryAt(mem, t, Index(p, 4)).address == EntryAt(mem, u, Index(p, 4)).address)
    decreases level
  {
    if level > 1 {
      var i, j := Index(p, level), Index(q, level);
      assert LinkOk(mem, tree, t, i) && LinkOk(mem, tree, u, j);
      var c, d := EntryAt(mem, t, i).address, EntryAt(mem, u, j).address;
      SlotInjective(mem, tree, c, d, level - 1, p, q);
      assert tree[c] == ChildNode(tree, t, i) && tree[d] == ChildNode(tree, u, j);
    }
  }

  /** The spaces r and s reach their level-1 entry for `page` through the same tables. */
  ghost predicate SamePath(mem: Memory, r: nat, s: nat, page: nat) {
    || r == s
    || (!Lower(page) && EntryAt(mem, r, Index(page, 4)).present && EntryAt(mem, s, Index(page, 4)).present
        && EntryAt(mem, r, Index(page, 4)).address == EntryAt(mem, s, Index(page, 4)).address)
  }

  lemma SameSlot(mem: Memory, tree: Tree, r: nat, s: nat, p: nat, q: nat)
    requires WellFormed(mem, tree) && IsRoot(tree, r) && IsRoot(tree, s)
    requires p < PAGES && q < PAGES && Slot(mem, r, 4, p).Some?
    ensures Slot(mem, s, 4, q) == Slot(mem, r, 4, p) <==> p == q && SamePath(mem, r, s, p)
  {
    if Slot(mem, s, 4, q) == Slot(mem, r, 4, p) {
      SlotInjective(mem, tree, r, s, 4, p, q);
      IndicesDeterminePage(p, q);
    } else if p == q && r != s {
      assert LinkOk(mem, tree, s, Index(p, 4));
    }
  }

  lemma SlotAlong(mem: Memory, tree: Tree, root: nat, c3: nat, c2: nat, c1: nat, page: nat)
    requires WellFormed(mem, tree) && IsRoot(tree, root)
    requires Names(EntryAt(mem, root, Index(page, 4))) && EntryAt(mem, root, Index(page, 4)).address == c3
    requires Names(EntryAt(mem, c3, Index(page, 3))) && EntryAt(mem, c3, Index(page, 3)).address == c2
    requires Names(EntryAt(mem, c2, Index(page, 2))) && EntryAt(mem, c2, Index(page, 2)).address == c1
    ensures Slot(mem, root, 4, page) == Some((c1, Index(page, 1)))
  {
    assert LinkOk(mem, tree, root, Index(page, 4));
    assert LinkOk(mem, tree, c3, Index(page, 3));
    assert LinkOk(mem, tree, c2, Index(page, 2));
    assert Slot(mem, c1, 1, page) == Some((c1, Index(page, 1)));
    assert Slot(mem, c2, 2, page) == Slot(mem, c1, 1, page);
    assert Slot(mem, c3, 3, page) == Slot(mem, c2, 2, page);
  }

  // ----- installing an empty table -----

  /** Frame a becomes an empty table, linked from entry i of t. */
  function Linked(mem: Memory, t: nat, i: nat, a: nat, user: bool): Memory
    requires IsTable(mem, t) && i < ENTRIES && a < |mem|
  {
    WithEntry(mem, t, i, Link(a, user))[a := EmptyTable()]
  }

  ghost predicate CanLink(mem: Memory, tree: Tree, t: nat, i: nat, a: nat) {
    && WellFormed(mem, tree) && t in tree && tree[t].level > 1 && i < ENTRIES
    && !EntryAt(mem, t, i).present && a !in tree && a < |mem|
  }

  lemma LinkedEntries(mem: Memory, tree: Tree, t: nat, i: nat, a: nat, user: bool, u: nat, j: nat)
    requires CanLink(mem, tree, t, i, a) && u in tree && tree[u].level > 0
    requires IsTable(mem, t)
    ensures IsTable(Linked(mem, t, i, a, user), u)
    ensures EntryAt(Linked(mem, t, i, a, user), u, j) == if u == t && j == i then Link(a, user) else EntryAt(mem, u, j)
    ensures EntryAt(Linked(mem, t, i, a, user), a, j) == ABSENT
  {
    assert NodeOk(mem, tree, u);
  }

  lemma LinkKeepsWellFormed(mem: Memory, tree: Tree, t: nat, i: nat, a: nat, user: bool)
    requires CanLink(mem, tree, t, i, a)
    requires IsTable(mem, t)
    ensures WellFormed(Linked(mem, t, i, a, user), tree[a := ChildNode(tree, t, i)])
  {
    var mem', tree' := Linked(mem, t, i, a, user), tree[a := ChildNode(tree, t, i)];
    forall f | f in tree' ensures NodeOk(mem', tree', f) && LinksOk(mem', tree', f) {
      if f == a {
        LinkedEntries(mem, tree, t, i, a, user, t, i);
        forall j: nat | j < ENTRIES ensures EntryAt(mem', a, j) == ABSENT {
          LinkedEntries(mem, tree, t, i, a, user, t, j);
        }
      } else {
        LinkKeepsNode(mem, tree, t, i, a, user, f);
        LinkKeepsLinks(mem, tree, t, i, a, user, f);
      }
    }
  }

  lemma LinkKeepsNode(mem: Memory, tree: Tree, t: nat, i: nat, a: nat, user: bool, f: nat)
    requires CanLink(mem, tree, t, i, a) && f in tree
    requires IsTable(mem, t)
    ensures NodeOk(Linked(mem, t, i, a, user), tree[a := ChildNode(tree, t, i)], f)
  {
    assert NodeOk(mem, tree, f);
    if tree[f].level > 0 {
      LinkedEntries(mem, tree, t, i, a, user, f, 0);
    }
    if tree[f].home.Under? {
      LinkedEntries(mem, tree, t, i, a, user, tree[f].home.parent, tree[f].home.index);
    }
  }

  lemma LinkKeepsLinks(mem: Memory, tree: Tree, t: nat, i: nat, a: nat, user: bool, f: nat)
    requires CanLink(mem, tree, t, i, a) && f in tree
    requires IsTable(mem, t)
    ensures LinksOk(Linked(mem, t, i, a, user), tree[a := ChildNode(tree, t, i)], f)
  {
    var mem', tree' := Linked(mem, t, i, a, user), tree[a := ChildNode(tree, t, i)];
    if tree[f].level > 1 {
      forall j: nat | j < ENTRIES ensures LinkOk(mem', tree', f, j) {
        assert LinkOk(mem, tree, f, j);
        LinkedEntries(mem, tree, t, i, a, user, f, j);
      }
    }
  }

  /** Installing an empty table changes no translation. */
  lemma {:induction false} LinkKeepsWalk(mem: Memory, tree: Tree, t: nat, i: nat, a: nat, user: bool, u: nat, level: nat, page: nat)
    requires CanLink(mem, tree, t, i, a) && 1 <= level <= 4
    requires IsTable(mem, t)
    requires u in tree && tree[u].level == level
    ensures Walk(Linked(mem, t, i, a, user), u, level, page) == Walk(mem, u, level, page)
    ensures Slot(mem, u, level, page).Some? ==> Slot(Linked(mem, t, i, a, user), u, level, page) == Slot(mem, u, level, page)
    decreases level
  {
    hide Linked, WellFormed, Index, IsTable, EntryAt;
    var j := Index(page, level);
    LinkedEntries(mem, tree, t, i, a, user, u, j);
    if level > 1 {
      if u == t && j == i {
        LinkedIsEmpty(mem, tree, t, i, a, user, level, page);
      } else if Names(EntryAt(mem, u, j)) {
        LinkAt(mem, tree, u, j);
        LinkKeepsWalk(mem, tree, t, i, a, user, EntryAt(mem, u, j).address, level - 1, page);
      }
    }
  }

  /** ... and puts no large page on a walk and takes none away. */
  lemma {:induction false} LinkKeepsClear(mem: Memory, tree: Tree, t: nat, i: nat, a: nat, user: bool, u: nat, level: nat, page: nat)
    requires CanLink(mem, tree, t, i, a) && 1 <= level <= 4
    requires IsTable(mem, t)
    requires u in tree && tree[u].level == level
    ensures Clear(Linked(mem, t, i, a, user), u, level, page) <==> Clear(mem, u, level, page)
    decreases level
  {
    hide Linked, WellFormed, Index, IsTable, EntryAt;
    if level > 1 {
      var j := Index(page, level);
      LinkedEntries(mem, tree, t, i, a, user, u, j);
      if u == t && j == i {
        LinkedEntries(mem, tree, t, i, a, user, u, Index(page, level - 1));
        EmptyIsClear(Linked(mem, t, i, a, user), a, level - 1, page);
      } else if Names(EntryAt(mem, u, j)) {
        LinkAt(mem, tree, u, j);
        LinkKeepsClear(mem, tree, t, i, a, user, EntryAt(mem, u, j).address, level - 1, page);
      }
    }
  }

  lemma EmptyIsClear(mem: Memory, a: nat, level: nat, page: nat)
    requires 1 <= level <= 4 && EntryAt(mem, a, Index(page, level)) == ABSENT
    ensures Clear(mem, a, level, page)
  {
  }

  /** A table linked for the program leaves every walk as open as it was; one linked for the kernel closes
      the walks that now go through it. */
  lemma {:induction false} LinkKeepsOpen(mem: Memory, tree: Tree, t: nat, i: nat, a: nat, user: bool, u: nat, level: nat, page: nat)
    requires CanLink(mem, tree, t, i, a) && 1 <= level <= 4
    requires IsTable(mem, t)
    requires u in tree && tree[u].level == level
    ensures var mem' := Linked(mem, t, i, a, user);
      && (Open(mem', u, level, page) ==> Open(mem, u, level, page))
      && (user || Slot(mem, u, level, page).Some? ==> (Open(mem', u, level, page) <==> Open(mem, u, level, page)))
      && (Slot(mem, u, level, page).Some? ==> Slot(mem', u, level, page).Some?)
      && (!user && Slot(mem, u, level, page).None? && Slot(mem', u, level, page).Some? ==> !Open(mem', u, level, page))
    decreases level
  {
    hide Linked, WellFormed, Index, IsTable, EntryAt;
    var mem' := Linked(mem, t, i, a, user);
    if level > 1 {
      var j := Index(page, level);
      LinkedEntries(mem, tree, t, i, a, user, u, j);
      if u == t && j == i {
        LinkedEntries(mem, tree, t, i, a, user, u, Index(page, level - 1));
        EmptyIsOpen(mem', a, level - 1, page);
      } else if Names(EntryAt(mem, u, j)) {
        LinkAt(mem, tree, u, j);
        LinkKeepsOpen(mem, tree, t, i, a, user, EntryAt(mem, u, j).address, level - 1, page);
      }
    }
  }

  lemma EmptyIsOpen(mem: Memory, a: nat, level: nat, page: nat)
    requires 1 <= level <= 4 && EntryAt(mem, a, Index(page, level)) == ABSENT
    ensures Open(mem, a, level, page)
  {
  }

  /** What installing tables does to who may pass: nothing for walks that were complete; for new ones the program
      may pass as before, if the tables are linked for it, and may not, if they are not. */
  ghost predicate Doors(mem: Memory, tree: Tree, mem': Memory, user: bool) {
    forall r, p: nat :: IsRoot(tree, r) ==> DoorsOf(mem, mem', user, r, p)
  }

  ghost predicate DoorsOf(mem: Memory, mem': Memory, user: bool, r: nat, p: nat) {
    && (Open(mem', r, 4, p) ==> Open(mem, r, 4, p))
    && (user || Slot(mem, r, 4, p).Some? ==> (Open(mem', r, 4, p) <==> Open(mem, r, 4, p)))
    && (Slot(mem, r, 4, p).Some? ==> Slot(mem', r, 4, p).Some?)
    && (!user && Slot(mem, r, 4, p).None? && Slot(mem', r, 4, p).Some? ==> !Open(mem', r, 4, p))
  }

  lemma LinkDoors(mem: Memory, tree: Tree, t: nat, i: nat, a: nat, user: bool)
    requires CanLink(mem, tree, t, i, a) && IsTable(mem, t)
    ensures Doors(mem, tree, Linked(mem, t, i, a, user), user)
  {
    hide Linked, WellFormed, Open, Slot, IsTable, EntryAt;
    forall r, p: nat | IsRoot(tree, r) ensures DoorsOf(mem, Linked(mem, t, i, a, user), user, r, p) {
      LinkKeepsOpen(mem, tree, t, i, a, user, r, 4, p);
    }
  }

  lemma DoorsSelf(mem: Memory, tree: Tree, user: bool)
    ensures Doors(mem, tree, mem, user)
  {
    hide Open, Slot;
  }

  lemma DoorsCompose(mem0: Memory, tree0: Tree, mem1: Memory, tree1: Tree, mem2: Memory, user: bool)
    requires Doors(mem0, tree0, mem1, user) && Doors(mem1, tree1, mem2, user)
    requires forall r :: IsRoot(tree1, r) <==> IsRoot(tree0, r)
    ensures Doors(mem0, tree0, mem2, user)
  {
    hide Open, Slot, IsRoot;
    forall r, p: nat | IsRoot(tree0, r) ensures DoorsOf(mem0, mem2, user, r, p) {
      assert DoorsOf(mem0, mem1, user, r, p) && DoorsOf(mem1, mem2, user, r, p);
    }
  }

  lemma DoorsAt(mem: Memory, tree: Tree, mem': Memory, user: bool, r: nat, p: nat)
    requires Doors(mem, tree, mem', user) && IsRoot(tree, r)
    ensures DoorsOf(mem, mem', user, r, p)
  {
    hide Open, Slot;
  }

  lemma LinkAt(mem: Memory, tree: Tree, u: nat, j: nat)
    requires WellFormed(mem, tree) && u in tree && tree[u].level > 1 && j < ENTRIES
    ensures LinkOk(mem, tree, u, j)
  {
  }

  /** A walk through the new, empty table ends there. */
  lemma LinkedIsEmpty(mem: Memory, tree: Tree, t: nat, i: nat, a: nat, user: bool, level: nat, page: nat)
    requires CanLink(mem, tree, t, i, a) && IsTable(mem, t) && 1 < level <= 4 && tree[t].level == level && Index(page, level) == i
    ensures Walk(Linked(mem, t, i, a, user), t, level, page).None? && Slot(mem, t, level, page).None? && Walk(mem, t, level, page).None?
  {
    hide Linked, WellFormed, Index, IsTable, EntryAt;
    var mem' := Linked(mem, t, i, a, user);
    LinkedEntries(mem, tree, t, i, a, user, t, i);
    LinkedEntries(mem, tree, t, i, a, user, t, Index(page, level - 1));
    assert EntryAt(mem', t, i) == Link(a, user);
    assert EntryAt(mem', a, Index(page, level - 1)) == ABSENT;
    assert Slot(mem', t, level, page) == Slot(mem', a, level - 1, page);
    if level - 1 > 1 {
      assert Slot(mem', a, level - 1, page).None?;
    } else {
      assert Slot(mem', a, 1, page) == Some((a, Index(page, 1)));
    }
  }

  lemma LinkKeepsOwnership(mem: Memory, tree: Tree, t: nat, i: nat, a: nat, user: bool, root: nat)
    requires CanLink(mem, tree, t, i, a)
    requires IsTable(mem, t)
    requires OwnsData(mem, tree, root)
    ensures OwnsData(Linked(mem, t, i, a, user), tree[a := ChildNode(tree, t, i)], root)
  {
    var mem', tree' := Linked(mem, t, i, a, user), tree[a := ChildNode(tree, t, i)];
    forall u, j: nat | u in tree' && tree'[u].level == 1 && tree'[u].space == Some(root) && j < ENTRIES
      ensures LinkOkAtLeaf(mem', tree', u, j)
    {
      if u != a {
        LinkedEntries(mem, tree, t, i, a, user, u, j);
        assert LinkOkAtLeaf(mem, tree, u, j);
      } else {
        LinkedEntries(mem, tree, t, i, a, user, t, j);
      }
    }
  }

  // ----- writing a level-1 entry -----

  /** The tree once entry i of the level-1 table t no longer holds what it held. */
  ghost function Dropped(mem: Memory, tree: Tree, t: nat, i: nat): Tree
    requires t in tree && tree[t].level > 0
  {
    if EntryAt(mem, t, i).present && EntryAt(mem, t, i).address in tree
       && tree[EntryAt(mem, t, i).address] == ChildNode(tree, t, i)
    then tree - {EntryAt(mem, t, i).address} else tree
  }

  /** ... and holds e instead, whose frame belongs to the space when `own` says so. */
  ghost function LeafTree(mem: Memory, tree: Tree, t: nat, i: nat, e: Pml, own: bool): Tree
    requires t in tree && tree[t].level > 0
  {
    if own then Dropped(mem, tree, t, i)[e.address := ChildNode(tree, t, i)] else Dropped(mem, tree, t, i)
  }

  ghost predicate CanWrite(mem: Memory, tree: Tree, t: nat, i: nat, e: Pml, own: bool) {
    && WellFormed(mem, tree) && t in tree && tree[t].level == 1 && i < ENTRIES && IsTable(mem, t)
    && (own ==> Names(e) && e.address !in tree && e.address < |mem|)
  }

  lemma WrittenEntries(mem: Memory, tree: Tree, t: nat, i: nat, e: Pml, own: bool, u: nat, j: nat)
    requires CanWrite(mem, tree, t, i, e, own) && u in tree && tree[u].level > 0
    ensures IsTable(WithEntry(mem, t, i, e), u)
    ensures EntryAt(WithEntry(mem, t, i, e), u, j) == if u == t && j == i then e else EntryAt(mem, u, j)
    ensures u in LeafTree(mem, tree, t, i, e, own) && LeafTree(mem, tree, t, i, e, own)[u] == tree[u]
  {
    assert NodeOk(mem, tree, u);
  }

  lemma WriteKeepsNode(mem: Memory, tree: Tree, t: nat, i: nat, e: Pml, own: bool, f: nat)
    requires CanWrite(mem, tree, t, i, e, own) && f in LeafTree(mem, tree, t, i, e, own)
    ensures NodeOk(WithEntry(mem, t, i, e), LeafTree(mem, tree, t, i, e, own), f)
  {
    WrittenEntries(mem, tree, t, i, e, own, t, i);
    if f in tree && !(own && f == e.address) {
      assert NodeOk(mem, tree, f);
      if tree[f].level > 0 {
        WrittenEntries(mem, tree, t, i, e, own, f, 0);
      }
      if tree[f].home.Under? {
        WrittenEntries(mem, tree, t, i, e, own, tree[f].home.parent, tree[f].home.index);
      }
    }
  }

  lemma WriteKeepsLinks(mem: Memory, tree: Tree, t: nat, i: nat, e: Pml, own: bool, f: nat)
    requires CanWrite(mem, tree, t, i, e, own) && f in tree && tree[f].level > 1
    ensures LinksOk(WithEntry(mem, t, i, e), LeafTree(mem, tree, t, i, e, own), f)
  {
    WrittenEntries(mem, tree, t, i, e, own, f, 0);
    forall j: nat | j < ENTRIES
      ensures LinkOk(WithEntry(mem, t, i, e), LeafTree(mem, tree, t, i, e, own), f, j)
    {
      assert LinkOk(mem, tree, f, j);
      WrittenEntries(mem, tree, t, i, e, own, f, j);
      if Names(EntryAt(mem, f, j)) {
        WrittenEntries(mem, tree, t, i, e, own, EntryAt(mem, f, j).address, 0);
      }
    }
  }

  lemma WriteKeepsWellFormed(mem: Memory, tree: Tree, t: nat, i: nat, e: Pml, own: bool)
    requires CanWrite(mem, tree, t, i, e, own)
    ensures WellFormed(WithEntry(mem, t, i, e), LeafTree(mem, tree, t, i, e, own))
  {
    var mem', tree' := WithEntry(mem, t, i, e), LeafTree(mem, tree, t, i, e, own);
    forall f | f in tree' ensures NodeOk(mem', tree', f) && LinksOk(mem', tree', f) {
      WriteKeepsNode(mem, tree, t, i, e, own, f);
      if tree'[f].level > 1 {
        WriteKeepsLinks(mem, tree, t, i, e, own, f);
      }
    }
  }

  lemma WriteKeepsOwnership(mem: Memory, tree: Tree, t: nat, i: nat, e: Pml, own: bool, root: nat)
    requires CanWrite(mem, tree, t, i, e, own) && OwnsData(mem, tree, root)
    requires tree[t].space == Some(root) ==> own || !e.present
    ensures OwnsData(WithEntry(mem, t, i, e), LeafTree(mem, tree, t, i, e, own), root)
  {
    hide WellFormed;
    var mem', tree' := WithEntry(mem, t, i, e), LeafTree(mem, tree, t, i, e, own);
    forall u, j: nat | u in tree' && tree'[u].level == 1 && tree'[u].space == Some(root) && j < ENTRIES
      ensures LinkOkAtLeaf(mem', tree', u, j)
    {
      WrittenEntries(mem, tree, t, i, e, own, u, j);
      assert LinkOkAtLeaf(mem, tree, u, j);
    }
  }

  lemma {:induction false} WriteKeepsSlot(mem: Memory, tree: Tree, t: nat, i: nat, e: Pml, u: nat, level: nat, page: nat)
    requires CanWrite(mem, tree, t, i, e, false) && 1 <= level <= 4
    requires u in tree && tree[u].level == level
    ensures Slot(WithEntry(mem, t, i, e), u, level, page) == Slot(mem, u, level, page)
    decreases level
  {
    if level > 1 {
      var j := Index(page, level);
      WrittenEntries(mem, tree, t, i, e, false, u, j);
      assert LinkOk(mem, tree, u, j);
      if Names(EntryAt(mem, u, j)) {
        WriteKeepsSlot(mem, tree, t, i, e, EntryAt(mem, u, j).address, level - 1, page);
      }
    }
  }

  lemma {:induction false} WriteKeepsClear(mem: Memory, tree: Tree, t: nat, i: nat, e: Pml, u: nat, level: nat, page: nat)
    requires CanWrite(mem, tree, t, i, e, false) && tree[t].level == 1 && 1 <= level <= 4
    requires u in tree && tree[u].level == level
    ensures Clear(WithEntry(mem, t, i, e), u, level, page) <==> Clear(mem, u, level, page)
    decreases level
  {
    hide WithEntry, WellFormed, Index, IsTable, EntryAt, LeafTree;
    if level > 1 {
      var j := Index(page, level);
      WrittenEntries(mem, tree, t, i, e, false, u, j);
      if Names(EntryAt(mem, u, j)) {
        LinkAt(mem, tree, u, j);
        WriteKeepsClear(mem, tree, t, i, e, EntryAt(mem, u, j).address, level - 1, page);
      }
    }
  }

  lemma {:induction false} WriteKeepsOpen(mem: Memory, tree: Tree, t: nat, i: nat, e: Pml, u: nat, level: nat, page: nat)
    requires CanWrite(mem, tree, t, i, e, false) && tree[t].level == 1 && 1 <= level <= 4
    requires u in tree && tree[u].level == level
    ensures Open(WithEntry(mem, t, i, e), u, level, page) <==> Open(mem, u, level, page)
    decreases level
  {
    hide WithEntry, WellFormed, Index, IsTable, EntryAt, LeafTree;
    if level > 1 {
      var j := Index(page, level);
      WrittenEntries(mem, tree, t, i, e, false, u, j);
      if Names(EntryAt(mem, u, j)) {
        LinkAt(mem, tree, u, j);
        WriteKeepsOpen(mem, tree, t, i, e, EntryAt(mem, u, j).address, level - 1, page);
      }
    }
  }

  lemma WriteKeepsDoors(mem: Memory, tree: Tree, t: nat, i: nat, e: Pml, user: bool)
    requires CanWrite(mem, tree, t, i, e, false) && tree[t].level == 1
    ensures Doors(mem, tree, WithEntry(mem, t, i, e), user)
  {
    hide WithEntry, WellFormed, Open, Slot, EntryAt, LeafTree;
    forall r, p: nat | IsRoot(tree, r) ensures DoorsOf(mem, WithEntry(mem, t, i, e), user, r, p) {
      WriteKeepsOpen(mem, tree, t, i, e, r, 4, p);
      WriteKeepsSlot(mem, tree, t, i, e, r, 4, p);
    }
  }

  /** Writing the level-1 entry of a page in one space updates that page, there and in the
      spaces that reach it through the same tables, and no other page of any space. */
  lemma WriteUpdatesOnePage(mem: Memory, tree: Tree, root: nat, page: nat, e: Pml, other: nat, q: nat)
    requires WellFormed(mem, tree) && IsRoot(tree, root) && IsRoot(tree, other)
    requires page < PAGES && q < PAGES && Slot(mem, root, 4, page).Some?
    ensures var s := Slot(mem, root, 4, page).value;
      && IsTable(mem, s.0) && s.1 < ENTRIES
      && Translate(WithEntry(mem, s.0, s.1, e), other, q) ==
         if q == page && SamePath(mem, root, other, page) then (if e.present then Some(e) else None)
         else Translate(mem, other, q)
  {
    var s := Slot(mem, root, 4, page).value;
    SlotInTree(mem, tree, root, 4, page);
    assert NodeOk(mem, tree, s.0);
    WriteKeepsSlot(mem, tree, s.0, s.1, e, other, 4, q);
    SameSlot(mem, tree, root, other, page, q);
    var z := Slot(mem, other, 4, q);
    if z.Some? {
      SlotInTree(mem, tree, other, 4, q);
      WrittenEntries(mem, tree, s.0, s.1, e, false, z.value.0, z.value.1);
    }
  }

  // ----- growing the tables -----

  predicate NotTable(tree: Tree, f: nat) {
    f in tree ==> tree[f].level == 0
  }

  /** Frames in use for other things than tables stay so, contents and all. */
  ghost predicate DataKept(mem: Memory, tree: Tree, used: set<nat>, mem': Memory, tree': Tree) {
    && |mem'| == |mem|
    && forall f :: f in used && f < |mem| && NotTable(tree, f) ==> NotTable(tree', f) && mem'[f] == mem[f]
  }

  /** Step from (mem, tree) to (mem', tree') that only adds tables to one space: nothing that
      was there moves, and no translation, sharing or ownership changes. */
  ghost predicate Grows(mem: Memory, tree: Tree, mem': Memory, tree': Tree, space: Option<nat>) {
    && |mem'| == |mem|
    && WellFormed(mem', tree')
    && (forall f :: f in tree ==> f in tree' && tree'[f] == tree[f])
    && (forall f :: f in tree' && f !in tree ==> 0 < tree'[f].level < 4 && tree'[f].space == space)
    && (forall f: nat :: f < |mem| && NotTable(tree', f) ==> mem'[f] == mem[f])
    && (forall t, i: nat :: t in tree && tree[t].level > 0 && EntryAt(mem, t, i).present ==> EntryAt(mem', t, i) == EntryAt(mem, t, i))
    && (forall r, p: nat :: IsRoot(tree, r) ==> Translate(mem', r, p) == Translate(mem, r, p))
    && (forall r, s, p: nat :: IsRoot(tree, r) && IsRoot(tree, s) ==> (SamePath(mem', r, s, p) <==> SamePath(mem, r, s, p)))
    && (forall r, p: nat :: IsRoot(tree, r) ==> (Clear(mem', r, 4, p) <==> Clear(mem, r, 4, p)))
    && (forall r, j, k: nat :: IsRoot(tree, r) ==> (Huge(mem', r, j, k) <==> Huge(mem, r, j, k)))
    && (forall r :: OwnsData(mem, tree, r) ==> OwnsData(mem', tree', r))
  }

  lemma GrowsCompose(mem0: Memory, tree0: Tree, mem1: Memory, tree1: Tree, mem2: Memory, tree2: Tree, space: Option<nat>)
    requires Grows(mem0, tree0, mem1, tree1, space) && Grows(mem1, tree1, mem2, tree2, space)
    ensures Grows(mem0, tree0, mem2, tree2, space)
  {
    hide Translate, SamePath, OwnsData, WellFormed, Clear, Huge;
    forall r, j, k: nat | IsRoot(tree0, r) ensures Huge(mem2, r, j, k) <==> Huge(mem0, r, j, k) {
      assert IsRoot(tree1, r);
    }
    forall r, p: nat | IsRoot(tree0, r)
      ensures Translate(mem2, r, p) == Translate(mem0, r, p) && (Clear(mem2, r, 4, p) <==> Clear(mem0, r, 4, p))
    {
      assert IsRoot(tree1, r);
    }
    forall r, s, p: nat | IsRoot(tree0, r) && IsRoot(tree0, s) ensures SamePath(mem2, r, s, p) <==> SamePath(mem0, r, s, p) {
      assert IsRoot(tree1, r) && IsRoot(tree1, s);
    }
  }

  lemma LinkKeepsSamePath(mem: Memory, tree: Tree, t: nat, i: nat, a: nat, user: bool, r: nat, s: nat, p: nat)
    requires CanLink(mem, tree, t, i, a) && IsTable(mem, t)
    requires IsRoot(tree, r) && IsRoot(tree, s)
    ensures SamePath(Linked(mem, t, i, a, user), r, s, p) <==> SamePath(mem, r, s, p)
  {
    LinkedEntries(mem, tree, t, i, a, user, r, Index(p, 4));
    LinkedEntries(mem, tree, t, i, a, user, s, Index(p, 4));
    assert LinkOk(mem, tree, r, Index(p, 4)) && LinkOk(mem, tree, s, Index(p, 4));
  }

  lemma LinkKeepsHuge(mem: Memory, tree: Tree, t: nat, i: nat, a: nat, user: bool, r: nat, j: nat, k: nat)
    requires CanLink(mem, tree, t, i, a) && IsTable(mem, t) && IsRoot(tree, r)
    ensures Huge(Linked(mem, t, i, a, user), r, j, k) <==> Huge(mem, r, j, k)
  {
    hide Linked;
    LinkedEntries(mem, tree, t, i, a, user, r, j);
    LinkedEntries(mem, tree, t, i, a, user, t, k);
    if Names(EntryAt(mem, r, j)) {
      assert j < ENTRIES && LinkOk(mem, tree, r, j);
      LinkedEntries(mem, tree, t, i, a, user, EntryAt(mem, r, j).address, k);
    }
  }

  lemma LinkGrows(mem: Memory, tree: Tree, t: nat, i: nat, a: nat, user: bool)
    requires CanLink(mem, tree, t, i, a) && IsTable(mem, t)
    ensures Grows(mem, tree, Linked(mem, t, i, a, user), tree[a := ChildNode(tree, t, i)], ChildNode(tree, t, i).space)
  {
    hide SamePath, OwnsData, WellFormed, Walk, Clear, Huge;
    var mem', tree' := Linked(mem, t, i, a, user), tree[a := ChildNode(tree, t, i)];
    LinkKeepsWellFormed(mem, tree, t, i, a, user);
    assert 0 < tree'[a].level < 4 by { LevelAtMost4(mem, tree, t); }
    forall u, j: nat | u in tree && tree[u].level > 0 && EntryAt(mem, u, j).present ensures EntryAt(mem', u, j) == EntryAt(mem, u, j) {
      LinkedEntries(mem, tree, t, i, a, user, u, j);
    }
    forall r, p: nat | IsRoot(tree, r) ensures Translate(mem', r, p) == Translate(mem, r, p) {
      LinkKeepsWalk(mem, tree, t, i, a, user, r, 4, p);
    }
    forall r, j, k: nat | IsRoot(tree, r) ensures Huge(mem', r, j, k) <==> Huge(mem, r, j, k) {
      LinkKeepsHuge(mem, tree, t, i, a, user, r, j, k);
    }
    forall r, p: nat | IsRoot(tree, r) ensures Clear(mem', r, 4, p) <==> Clear(mem, r, 4, p) {
      LinkKeepsClear(mem, tree, t, i, a, user, r, 4, p);
    }
    forall r, s, p: nat | IsRoot(tree, r) && IsRoot(tree, s) ensures SamePath(mem', r, s, p) <==> SamePath(mem, r, s, p) {
      LinkKeepsSamePath(mem, tree, t, i, a, user, r, s, p);
    }
    forall r | OwnsData(mem, tree, r) ensures OwnsData(mem', tree', r) {
      LinkKeepsOwnership(mem, tree, t, i, a, user, r);
    }
  }

  lemma LevelAtMost4(mem: Memory, tree: Tree, t: nat)
    requires WellFormed(mem, tree) && t in tree
    ensures tree[t].level <= 4 && (tree[t].level > 0 ==> IsTable(mem, t))
  {
    assert NodeOk(mem, tree, t);
  }

  // ----- contents of frames outside the tables -----

  lemma ContentKeepsWellFormed(mem: Memory, tree: Tree, f: nat, c: Content)
    requires WellFormed(mem, tree) && f < |mem| && NotTable(tree, f)
    ensures WellFormed(mem[f := c], tree)
  {
    var mem' := mem[f := c];
    forall g | g in tree ensures NodeOk(mem', tree, g) && LinksOk(mem', tree, g) {
      assert NodeOk(mem, tree, g);
      forall i: nat | tree[g].level > 1 && i < ENTRIES ensures LinkOk(mem', tree, g, i) {
        assert LinkOk(mem, tree, g, i);
      }
    }
  }

  lemma {:induction false} ContentKeepsSlot(mem: Memory, tree: Tree, f: nat, c: Content, t: nat, level: nat, page: nat)
    requires WellFormed(mem, tree) && f < |mem| && NotTable(tree, f)
    requires t in tree && tree[t].level == level && 1 <= level <= 4
    ensures Slot(mem[f := c], t, level, page) == Slot(mem, t, level, page)
    decreases level
  {
    if level > 1 {
      var i := Index(page, level);
      assert LinkOk(mem, tree, t, i);
      assert EntryAt(mem[f := c], t, i) == EntryAt(mem, t, i);
      if Names(EntryAt(mem, t, i)) {
        ContentKeepsSlot(mem, tree, f, c, EntryAt(mem, t, i).address, level - 1, page);
      }
    }
  }

  lemma {:induction false} ContentKeepsOpen(mem: Memory, tree: Tree, f: nat, c: Content, t: nat, level: nat, page: nat)
    requires WellFormed(mem, tree) && f < |mem| && NotTable(tree, f)
    requires t in tree && tree[t].level == level && 1 <= level <= 4
    ensures Open(mem[f := c], t, level, page) <==> Open(mem, t, level, page)
    decreases level
  {
    if level > 1 {
      var i := Index(page, level);
      assert LinkOk(mem, tree, t, i);
      assert EntryAt(mem[f := c], t, i) == EntryAt(mem, t, i);
      if Names(EntryAt(mem, t, i)) {
        ContentKeepsOpen(mem, tree, f, c, EntryAt(mem, t, i).address, level - 1, page);
      }
    }
  }

  lemma ContentKeepsDoors(mem: Memory, tree: Tree, f: nat, c: Content, user: bool)
    requires WellFormed(mem, tree) && f < |mem| && NotTable(tree, f)
    ensures Doors(mem, tree, mem[f := c], user)
  {
    hide WellFormed, Open, Slot, NotTable;
    var mem' := mem[f := c];
    forall r, p: nat | IsRoot(tree, r) ensures DoorsOf(mem, mem', user, r, p) {
      ContentKeepsOpen(mem, tree, f, c, r, 4, p);
      ContentKeepsSlot(mem, tree, f, c, r, 4, p);
    }
  }

  lemma {:induction false} ContentKeepsClear(mem: Memory, tree: Tree, f: nat, c: Content, t: nat, level: nat, page: nat)
    requires WellFormed(mem, tree) && f < |mem| && NotTable(tree, f)
    requires t in tree && tree[t].level == level && 1 <= level <= 4
    ensures Clear(mem[f := c], t, level, page) <==> Clear(mem, t, level, page)
    decreases level
  {
    if level > 1 {
      var i := Index(page, level);
      assert LinkOk(mem, tree, t, i);
      assert EntryAt(mem[f := c], t, i) == EntryAt(mem, t, i);
      if Names(EntryAt(mem, t, i)) {
        ContentKeepsClear(mem, tree, f, c, EntryAt(mem, t, i).address, level - 1, page);
      }
    }
  }

  lemma ContentKeepsWalk(mem: Memory, tree: Tree, f: nat, c: Content, t: nat, level: nat, page: nat)
    requires WellFormed(mem, tree) && f < |mem| && NotTable(tree, f)
    requires t in tree && tree[t].level == level && 1 <= level <= 4
    ensures Walk(mem[f := c], t, level, page) == Walk(mem, t, level, page)
  {
    hide WellFormed, Slot;
    ContentKeepsSlot(mem, tree, f, c, t, level, page);
    if Slot(mem, t, level, page).Some? {
      SlotInTree(mem, tree, t, level, page);
    }
  }

  // ----- a new address space -----

  /** The level-4 table of a new space: the kernel's upper half over an empty lower half. */
  function NewRoot(kernel: seq<Pml>): Content
    requires |kernel| == ENTRIES
  {
    Table(seq(256, _ => ABSENT) + kernel[256..])
  }

  lemma NewRootEntries(mem: Memory, kernel: nat, r: nat, i: nat)
    requires IsTable(mem, kernel) && r < |mem| && i < ENTRIES
    ensures IsTable(mem[r := NewRoot(mem[kernel].entries)], r)
    ensures EntryAt(mem[r := NewRoot(mem[kernel].entries)], r, i) == if i < 256 then ABSENT else EntryAt(mem, kernel, i)
  {
  }

  ghost predicate CanCreate(mem: Memory, tree: Tree, kernel: nat, r: nat) {
    WellFormed(mem, tree) && IsRoot(tree, kernel) && IsTable(mem, kernel) && r < |mem| && r !in tree
  }

  lemma CreateKeepsWellFormed(mem: Memory, tree: Tree, kernel: nat, r: nat)
    requires CanCreate(mem, tree, kernel, r)
    ensures var tree' := tree[r := Node(4, Some(r), Root)];
            var mem' := mem[r := NewRoot(mem[kernel].entries)];
            WellFormed(mem', tree') && OwnsData(mem', tree', r)
  {
    hide NewRoot, NodeOk, LinksOk;
    var mem', tree' := mem[r := NewRoot(mem[kernel].entries)], tree[r := Node(4, Some(r), Root)];
    ContentKeepsWellFormed(mem, tree, r, NewRoot(mem[kernel].entries));
    forall f | f in tree' ensures NodeOk(mem', tree', f) && LinksOk(mem', tree', f) {
      if f == r {
        NewRootOk(mem, tree, kernel, r);
      } else {
        assert NodeOk(mem', tree, f) && LinksOk(mem', tree, f);
        OldNodeOk(mem', tree, r, f);
      }
    }
    forall t | t in tree ensures tree[t].space != Some(r) {
      OldSpace(mem, tree, r, t);
    }
  }

  lemma NewRootOk(mem: Memory, tree: Tree, kernel: nat, r: nat)
    requires CanCreate(mem, tree, kernel, r)
    ensures var mem', tree' := mem[r := NewRoot(mem[kernel].entries)], tree[r := Node(4, Some(r), Root)];
            NodeOk(mem', tree', r) && LinksOk(mem', tree', r)
  {
    hide NewRoot;
    var mem', tree' := mem[r := NewRoot(mem[kernel].entries)], tree[r := Node(4, Some(r), Root)];
    NewRootEntries(mem, kernel, r, 0);
    forall i: nat | i < ENTRIES ensures LinkOk(mem', tree', r, i) {
      NewRootEntries(mem, kernel, r, i);
      assert LinkOk(mem, tree, kernel, i);
    }
  }

  lemma OldNodeOk(mem: Memory, tree: Tree, r: nat, f: nat)
    requires r !in tree && f in tree && NodeOk(mem, tree, f) && LinksOk(mem, tree, f)
    ensures var tree' := tree[r := Node(4, Some(r), Root)]; NodeOk(mem, tree', f) && LinksOk(mem, tree', f)
  {
    var tree' := tree[r := Node(4, Some(r), Root)];
    forall i: nat | tree[f].level > 1 && i < ENTRIES ensures LinkOk(mem, tree', f, i) {
      assert LinkOk(mem, tree, f, i);
    }
  }

  lemma OldSpace(mem: Memory, tree: Tree, r: nat, t: nat)
    requires WellFormed(mem, tree) && r !in tree && t in tree
    ensures tree[t].space != Some(r)
  {
    assert NodeOk(mem, tree, t);
  }

  /** A new space starts with the kernel's translations above and none below. */
  lemma CreateTranslations(mem: Memory, tree: Tree, kernel: nat, r: nat, p: nat)
    requires CanCreate(mem, tree, kernel, r)
    ensures var mem' := mem[r := NewRoot(mem[kernel].entries)];
            && Translate(mem', r, p) == (if Lower(p) then None else Translate(mem, kernel, p))
            && (!Lower(p) && EntryAt(mem, kernel, Index(p, 4)).present ==> SamePath(mem', kernel, r, p))
            && (Clear(mem', r, 4, p) <==> Lower(p) || Clear(mem, kernel, 4, p))
  {
    hide NewRoot;
    var mem' := mem[r := NewRoot(mem[kernel].entries)];
    NewRootEntries(mem, kernel, r, Index(p, 4));
    assert LinkOk(mem, tree, kernel, Index(p, 4));
    var e := EntryAt(mem, kernel, Index(p, 4));
    if !Lower(p) && e.present {
      ContentKeepsWalk(mem, tree, r, NewRoot(mem[kernel].entries), e.address, 3, p);
      ContentKeepsClear(mem, tree, r, NewRoot(mem[kernel].entries), e.address, 3, p);
    }
  }

  // ----- what a space owns -----

  /** Every frame of the space: its root, the tables of its lower half and its data. */
  ghost function SpaceFrames(tree: Tree, r: nat): set<nat> {
    set f | f in tree && tree[f].space == Some(r)
  }

  /** The level-k table, and its entry, through which frame x hangs. */
  ghost function Branch(mem: Memory, tree: Tree, x: nat, level: nat): (b: (nat, nat))
    requires WellFormed(mem, tree) && x in tree && tree[x].space.Some? && tree[x].level < level <= 4
    ensures b.0 in tree && tree[b.0].level == level && tree[b.0].space == tree[x].space && b.1 < ENTRIES
    ensures level == 4 ==> b.1 < 256
    decreases level - tree[x].level
  {
    assert NodeOk(mem, tree, x);
    var p := tree[x].home.parent;
    if tree[p].level == level then (p, tree[x].home.index) else Branch(mem, tree, p, level)
  }

  /** The frames below the first n entries of table t. */
  ghost function Below(mem: Memory, tree: Tree, t: nat, n: nat): set<nat>
    requires WellFormed(mem, tree) && t in tree && tree[t].level <= 4
  {
    set x | x in tree && tree[x].space.Some? && tree[x].level < tree[t].level
            && Branch(mem, tree, x, tree[t].level).0 == t && Branch(mem, tree, x, tree[t].level).1 < n
  }

  /** One level up from the branch is the branch of the table found. */
  lemma {:induction false} BranchClimbs(mem: Memory, tree: Tree, x: nat, level: nat)
    requires WellFormed(mem, tree) && x in tree && tree[x].space.Some? && tree[x].level < level < 4
    ensures Branch(mem, tree, x, level + 1) == Branch(mem, tree, Branch(mem, tree, x, level).0, level + 1)
    decreases level - tree[x].level
  {
    assert NodeOk(mem, tree, x);
    var p := tree[x].home.parent;
    if tree[p].level < level {
      BranchClimbs(mem, tree, p, level);
    }
  }

  /** Frame x hangs through entry (t, i) exactly when that entry names x or a table above x. */
  lemma BranchThrough(mem: Memory, tree: Tree, x: nat, t: nat, i: nat)
    requires WellFormed(mem, tree) && t in tree && 0 < tree[t].level <= 4 && tree[t].space.Some? && i < ENTRIES
    requires x in tree && tree[x].space.Some? && tree[x].level < tree[t].level
    ensures Branch(mem, tree, x, tree[t].level) == (t, i) <==>
      EntryAt(mem, t, i).present && EntryAt(mem, t, i).address in tree
      && tree[EntryAt(mem, t, i).address] == ChildNode(tree, t, i)
      && (tree[t].level == 4 ==> i < 256)
      && (x == EntryAt(mem, t, i).address
          || (tree[x].level < tree[t].level - 1 && Branch(mem, tree, x, tree[t].level - 1).0 == EntryAt(mem, t, i).address))
  {
    var level := tree[t].level;
    var c := EntryAt(mem, t, i).address;
    assert NodeOk(mem, tree, x);
    if tree[x].level < level - 1 {
      BranchClimbs(mem, tree, x, level - 1);
      assert NodeOk(mem, tree, Branch(mem, tree, x, level - 1).0);
    }
  }

  lemma BelowStep(mem: Memory, tree: Tree, t: nat, i: nat)
    requires WellFormed(mem, tree) && t in tree && 0 < tree[t].level <= 4 && tree[t].space.Some?
    requires i < ENTRIES && (tree[t].level == 4 ==> i < 256)
    requires LinkOkAtLeaf(mem, tree, t, i)
    ensures var e := EntryAt(mem, t, i);
      if e.present then
        && Below(mem, tree, t, i + 1) == Below(mem, tree, t, i) + {e.address} + Below(mem, tree, e.address, ENTRIES)
        && Below(mem, tree, t, i) !! {e.address} !! Below(mem, tree, e.address, ENTRIES)
      else Below(mem, tree, t, i + 1) == Below(mem, tree, t, i)
  {
    hide Branch, WellFormed;
    forall x | x in tree && tree[x].space.Some? && tree[x].level < tree[t].level {
      BranchThrough(mem, tree, x, t, i);
    }
  }

  lemma SpaceIsBelowRoot(mem: Memory, tree: Tree, r: nat)
    requires WellFormed(mem, tree) && IsRoot(tree, r)
    ensures SpaceFrames(tree, r) == Below(mem, tree, r, 256) + {r}
    ensures r !in Below(mem, tree, r, 256)
  {
    assert NodeOk(mem, tree, r);
    forall x | x in tree && tree[x].space == Some(r) && x != r ensures x in Below(mem, tree, r, 256) {
      assert NodeOk(mem, tree, x);
      assert NodeOk(mem, tree, Branch(mem, tree, x, 4).0);
    }
    forall x | x in Below(mem, tree, r, 256) ensures tree[x].space == Some(r) {
    }
  }

  /** The other spaces do not notice that one is gone. */
  lemma DestroyKeepsWellFormed(mem: Memory, tree: Tree, r: nat)
    requires WellFormed(mem, tree)
    ensures WellFormed(mem, tree - SpaceFrames(tree, r))
  {
    var tree' := tree - SpaceFrames(tree, r);
    forall f | f in tree' ensures NodeOk(mem, tree', f) && LinksOk(mem, tree', f) {
      assert NodeOk(mem, tree, f) && LinksOk(mem, tree, f);
      forall i: nat | tree[f].level > 1 && i < ENTRIES ensures LinkOk(mem, tree', f, i) {
        assert LinkOk(mem, tree, f, i);
      }
    }
  }
}

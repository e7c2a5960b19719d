/** Any run of maps and unmaps over any number of spaces, as updates of abstract page maps: one map
    from pages to entries per space, where spaces that share an upper-half table share its pages. */
module PageMaps {
  import opened Common
  import opened Physical
  import opened PageTables
  import opened Mmu

  datatype PageOp = Map(root: nat, page: nat, frame: nat, flags: Flags) | Unmap(root: nat, page: nat)

  /** The space exists, and no large page lies where the operation writes. */
  ghost predicate Allowed(mem: Memory, tree: Tree, op: PageOp) {
    IsRoot(tree, op.root) && op.page < PAGES && Clear(mem, op.root, 4, op.page)
  }

  lemma StillAllowed(mem: Memory, tree: Tree, mem': Memory, tree': Tree, op: PageOp)
    requires Allowed(mem, tree, op) && PathsKept(mem, tree, mem') && forall r :: IsRoot(tree', r) <==> IsRoot(tree, r)
    ensures Allowed(mem', tree', op)
  {
    hide Clear, SamePath;
  }

  /** An operation on its own space is seen by r at page p. */
  ghost predicate Sees(mem: Memory, op: PageOp, r: nat, p: nat) {
    op.page == p && SamePath(mem, op.root, r, p)
  }

  /** What page p of space r is after the first n operations, by the last one that it sees. */
  ghost function After(mem: Memory, ops: seq<PageOp>, n: nat, r: nat, p: nat): Option<Pml>
    requires n <= |ops|
  {
    if n == 0 then Translate(mem, r, p)
    else if Sees(mem, ops[n - 1], r, p) then (match ops[n - 1] case Map(_, _, f, flags) => Some(Leaf(f, flags)) case Unmap(_, _) => None)
    else After(mem, ops, n - 1, r, p)
  }

  ghost predicate Refines(mem0: Memory, tree0: Tree, mem: Memory, ops: seq<PageOp>, n: nat)
    requires n <= |ops|
  {
    forall r, p: nat :: IsRoot(tree0, r) && p < PAGES ==> Translate(mem, r, p) == After(mem0, ops, n, r, p)
  }

  function Written(op: PageOp): Pml {
    if op.Map? then Leaf(op.frame, op.flags) else ABSENT
  }

  lemma RefinesStep(mem0: Memory, tree0: Tree, mem: Memory, tree: Tree, mem': Memory, ops: seq<PageOp>, n: nat)
    requires n < |ops| && Refines(mem0, tree0, mem, ops, n) && PathsKept(mem0, tree0, mem)
    requires forall r :: IsRoot(tree, r) <==> IsRoot(tree0, r)
    requires IsRoot(tree0, ops[n].root) && Updates(mem, tree, mem', ops[n].root, ops[n].page, Written(ops[n]))
    ensures Refines(mem0, tree0, mem', ops, n + 1)
  {
    hide Walk, SamePath, IsRoot;
    var n' := n + 1;
    forall r, p: nat | IsRoot(tree0, r) && p < PAGES ensures Translate(mem', r, p) == After(mem0, ops, n', r, p) {
      assert Translate(mem, r, p) == After(mem0, ops, n, r, p);
      assert SamePath(mem, ops[n].root, r, p) <==> SamePath(mem0, ops[n].root, r, p);
    }
  }

  /** Runs the operations; false is a panic: no frame for a table, or an unmap of a page that is not mapped. */
  method Run(m: Mmu, ops: seq<PageOp>) returns (ok: bool)
    requires m.Valid() && forall i :: 0 <= i < |ops| ==> Allowed(m.memory, m.tree, ops[i])
    modifies m`memory, m`tree, m.frames.bytes
    ensures m.Valid() && forall r :: IsRoot(m.tree, r) <==> IsRoot(old(m.tree), r)
    ensures ok ==> Refines(old(m.memory), old(m.tree), m.memory, ops, |ops|)
    ensures PathsKept(old(m.memory), old(m.tree), m.memory)
    ensures !ok ==> m.OutOfFrames() || exists i :: 0 <= i < |ops| && ops[i].Unmap? && After(old(m.memory), ops, i, ops[i].root, ops[i].page).None?
  {
    hide UsedFrames, WellFormed, Updates, PathsKept, Refines, DataKept, Mapped, Unmapped, OwnsData, After, Walk, Clear;
    ghost var mem0, tree0 := m.memory, m.tree;
    PathsKeptSelf(mem0, tree0);
    RefinesStart(mem0, tree0, ops);
    for i := 0 to |ops|
      invariant m.Valid() && forall r :: IsRoot(m.tree, r) <==> IsRoot(tree0, r)
      invariant Refines(mem0, tree0, m.memory, ops, i) && PathsKept(mem0, tree0, m.memory)
    {
      ghost var mem1, tree1 := m.memory, m.tree;
      var op := ops[i];
      StillAllowed(mem0, tree0, mem1, tree1, op);
      if op.Map? {
        ok := m.MapPage(op.frame, op.page, op.flags, op.root, false);
      } else {
        RefinesAt(mem0, tree0, mem1, ops, i, op.root, op.page);
        var f := m.UnmapPage(op.page, op.root);
        ok := f.Some?;
      }
      PathsKeptCompose(mem0, tree0, mem1, tree1, m.memory);
      if !ok { return; }
      RefinesStep(mem0, tree0, mem1, tree1, m.memory, ops, i);
    }
    ok := true;
  }

  lemma RefinesStart(mem: Memory, tree: Tree, ops: seq<PageOp>)
    ensures Refines(mem, tree, mem, ops, 0)
  {
    hide Walk;
  }

  lemma RefinesAt(mem0: Memory, tree0: Tree, mem: Memory, ops: seq<PageOp>, n: nat, r: nat, p: nat)
    requires n <= |ops| && Refines(mem0, tree0, mem, ops, n) && IsRoot(tree0, r) && p < PAGES
    ensures Translate(mem, r, p) == After(mem0, ops, n, r, p)
  {
    hide Walk;
  }

  /** A page changes only by operations that it sees. */
  lemma {:induction false} OthersUnseen(mem: Memory, ops: seq<PageOp>, n: nat, r: nat, p: nat)
    requires n <= |ops| && forall i :: 0 <= i < n ==> !Sees(mem, ops[i], r, p)
    ensures After(mem, ops, n, r, p) == Translate(mem, r, p)
  {
    if n > 0 {
      OthersUnseen(mem, ops, n - 1, r, p);
    }
  }

  /** Lower halves are private: what other spaces do there is never seen. */
  lemma LowerIsPrivate(mem: Memory, ops: seq<PageOp>, n: nat, r: nat, p: nat)
    requires n <= |ops| && Lower(p)
    requires forall i :: 0 <= i < n && ops[i].root == r ==> ops[i].page != p
    ensures After(mem, ops, n, r, p) == Translate(mem, r, p)
  {
    OthersUnseen(mem, ops, n, r, p);
  }

  /** Under a level-4 slot that two spaces share, every map and unmap of either, or of a third that
      shares it, shows the same to both after any run. */
  lemma {:induction false} SharedIsShared(mem: Memory, tree: Tree, ops: seq<PageOp>, n: nat, r: nat, s: nat, p: nat)
    requires WellFormed(mem, tree) && IsRoot(tree, r) && IsRoot(tree, s) && n <= |ops| && p < PAGES
    requires SamePath(mem, r, s, p)
    ensures After(mem, ops, n, r, p) == After(mem, ops, n, s, p)
  {
    hide WellFormed, Slot;
    if n == 0 {
      SharedNow(mem, tree, r, s, p);
    } else {
      SharedIsShared(mem, tree, ops, n - 1, r, s, p);
      assert Sees(mem, ops[n - 1], r, p) <==> Sees(mem, ops[n - 1], s, p);
    }
  }

  lemma SharedNow(mem: Memory, tree: Tree, r: nat, s: nat, p: nat)
    requires WellFormed(mem, tree) && IsRoot(tree, r) && IsRoot(tree, s) && p < PAGES && SamePath(mem, r, s, p)
    ensures Translate(mem, r, p) == Translate(mem, s, p)
  {
    hide WellFormed, Slot;
    if Slot(mem, r, 4, p).Some? {
      SameSlot(mem, tree, r, s, p, p);
    } else if Slot(mem, s, 4, p).Some? {
      SameSlot(mem, tree, s, r, p, p);
    }
  }
}

/** Loading the segments of an executable into an address space. The bytes are written through the
    window onto physical memory and read back through the page tables. */
module Elf {
  import opened Common
  import opened FirstFit
  import opened Physical
  import opened PageTables
  import opened Mmu
  import opened AddressSpace
  import opened Lifetime

  // ----- bytes of physical memory -----

  /** The bytes of a frame; those a former table would show are not modelled and never relied on. */
  function Raw(c: Content): (r: seq<bv8>)
    ensures |r| == PAGE_SIZE
  {
    if c.Bytes? && |c.data| == PAGE_SIZE then c.data else seq(PAGE_SIZE, _ => 0)
  }

  function PhysByte(mem: Memory, a: nat): bv8 {
    if a / PAGE_SIZE < |mem| then Raw(mem[a / PAGE_SIZE])[a % PAGE_SIZE] else 0
  }

  function WithByte(mem: Memory, a: nat, b: bv8): Memory
    requires a / PAGE_SIZE < |mem|
  {
    mem[a / PAGE_SIZE := Bytes(Raw(mem[a / PAGE_SIZE])[a % PAGE_SIZE := b])]
  }

  /** The byte a program of the space sees at a virtual address. */
  function VirtualByte(mem: Memory, root: nat, v: nat): Option<bv8> {
    var e := Translate(mem, root, v / PAGE_SIZE);
    if e.None? then None else Some(PhysByte(mem, e.value.address * PAGE_SIZE + v % PAGE_SIZE))
  }

  lemma WithByteAt(mem: Memory, a: nat, b: bv8, x: nat)
    requires a / PAGE_SIZE < |mem|
    ensures PhysByte(WithByte(mem, a, b), x) == if x == a then b else PhysByte(mem, x)
  {
    if x / PAGE_SIZE == a / PAGE_SIZE && x % PAGE_SIZE == a % PAGE_SIZE {
      assert x == a;
    }
  }

  /** Memory changed at the addresses from a on, to the bytes of data, and nowhere else. */
  ghost predicate Written(mem: Memory, mem': Memory, a: nat, data: seq<bv8>) {
    && |mem'| == |mem|
    && forall x: nat :: PhysByte(mem', x) == if a <= x < a + |data| then data[x - a] else PhysByte(mem, x)
  }

  /** Every space translates as before. */
  ghost predicate SameTranslations(mem: Memory, tree: Tree, mem': Memory) {
    forall r, q: nat :: IsRoot(tree, r) ==> Translate(mem', r, q) == Translate(mem, r, q)
  }

  ghost predicate Writable(mem: Memory, tree: Tree, a: nat, n: nat) {
    forall x: nat :: a <= x < a + n ==> Plain(mem, tree, x / PAGE_SIZE)
  }

  ghost predicate Plain(mem: Memory, tree: Tree, f: nat) {
    f < |mem| && NotTable(tree, f)
  }

  lemma ByteKeepsTables(mem: Memory, tree: Tree, a: nat, b: bv8)
    requires WellFormed(mem, tree) && Plain(mem, tree, a / PAGE_SIZE)
    ensures WellFormed(WithByte(mem, a, b), tree) && SameTranslations(mem, tree, WithByte(mem, a, b))
    ensures forall r :: OwnsData(mem, tree, r) ==> OwnsData(WithByte(mem, a, b), tree, r)
    ensures Doors(mem, tree, WithByte(mem, a, b), true)
  {
    hide WellFormed, Walk, OwnsData, Doors;
    var f, c := a / PAGE_SIZE, Bytes(Raw(mem[a / PAGE_SIZE])[a % PAGE_SIZE := b]);
    ContentKeepsWellFormed(mem, tree, f, c);
    ContentKeepsDoors(mem, tree, f, c, true);
    forall r, q: nat | IsRoot(tree, r) ensures Translate(mem[f := c], r, q) == Translate(mem, r, q) {
      ContentKeepsWalk(mem, tree, f, c, r, 4, q);
    }
    forall r | OwnsData(mem, tree, r) ensures OwnsData(mem[f := c], tree, r) {
      ContentKeepsOwnership(mem, tree, f, c, r);
    }
  }

  lemma ContentKeepsOwnership(mem: Memory, tree: Tree, f: nat, c: Content, r: nat)
    requires f < |mem| && NotTable(tree, f) && OwnsData(mem, tree, r)
    ensures OwnsData(mem[f := c], tree, r)
  {
    var mem' := mem[f := c];
    forall t, i: nat | t in tree && tree[t].level == 1 && tree[t].space == Some(r) && i < ENTRIES
      ensures LinkOkAtLeaf(mem', tree, t, i)
    {
      assert LinkOkAtLeaf(mem, tree, t, i);
    }
  }

  lemma WrittenStep(mem: Memory, mem1: Memory, a: nat, data: seq<bv8>, b: bv8)
    requires Written(mem, mem1, a, data) && (a + |data|) / PAGE_SIZE < |mem|
    ensures Written(mem, WithByte(mem1, a + |data|, b), a, data + [b])
  {
    hide PhysByte, WithByte;
    var mem2 := WithByte(mem1, a + |data|, b);
    assert |mem2| == |mem1| by { WithByteSize(mem1, a + |data|, b); }
    forall x: nat
      ensures PhysByte(mem2, x) == if a <= x < a + |data + [b]| then (data + [b])[x - a] else PhysByte(mem, x)
    {
      WithByteAt(mem1, a + |data|, b, x);
    }
  }

  lemma WithByteSize(mem: Memory, a: nat, b: bv8)
    requires a / PAGE_SIZE < |mem|
    ensures |WithByte(mem, a, b)| == |mem|
  {
  }

  lemma WrittenCompose(mem: Memory, mem1: Memory, mem2: Memory, a: nat, data: seq<bv8>, more: seq<bv8>)
    requires Written(mem, mem1, a, data) && Written(mem1, mem2, a + |data|, more)
    ensures Written(mem, mem2, a, data + more)
  {
    hide PhysByte;
  }

  /** Stores bytes at a physical address, outside the page tables. */
  method Store(m: Mmu, a: nat, data: seq<bv8>)
    requires m.Valid() && Writable(m.memory, m.tree, a, |data|)
    modifies m`memory
    ensures m.Valid() && Written(old(m.memory), m.memory, a, data)
    ensures SameTranslations(old(m.memory), m.tree, m.memory)
    ensures forall r :: OwnsData(old(m.memory), m.tree, r) ==> OwnsData(m.memory, m.tree, r)
    ensures Doors(old(m.memory), m.tree, m.memory, true)
  {
    hide UsedFrames, WellFormed, OwnsData, Written, Walk, PhysByte, Doors;
    DoorsSelf(m.memory, m.tree, true);
    assert Written(m.memory, m.memory, a, []) by { WrittenNothing(m.memory, a); }
    for i := 0 to |data|
      invariant m.Valid() && |m.memory| == old(|m.memory|)
      invariant Written(old(m.memory), m.memory, a, data[..i])
      invariant SameTranslations(old(m.memory), m.tree, m.memory)
      invariant forall r :: OwnsData(old(m.memory), m.tree, r) ==> OwnsData(m.memory, m.tree, r)
      invariant Doors(old(m.memory), m.tree, m.memory, true)
    {
      assert Plain(old(m.memory), m.tree, (a + i) / PAGE_SIZE);
      ByteKeepsTables(m.memory, m.tree, a + i, data[i]);
      WrittenStep(old(m.memory), m.memory, a, data[..i], data[i]);
      assert data[..i] + [data[i]] == data[..i + 1];
      DoorsCompose(old(m.memory), m.tree, m.memory, m.tree, WithByte(m.memory, a + i, data[i]), true);
      m.memory := WithByte(m.memory, a + i, data[i]);
    }
    assert data[..|data|] == data;
  }

  lemma WrittenNothing(mem: Memory, a: nat)
    ensures Written(mem, mem, a, [])
  {
  }

  function Zeros(n: nat): seq<bv8> {
    seq(n, _ => 0)
  }

  /** memset to zero: whole words first, then the bytes that are left. */
  method ZeroFill(m: Mmu, a: nat, n: nat)
    requires m.Valid() && Writable(m.memory, m.tree, a, n)
    modifies m`memory
    ensures m.Valid() && Written(old(m.memory), m.memory, a, Zeros(n))
    ensures SameTranslations(old(m.memory), m.tree, m.memory)
    ensures forall r :: OwnsData(old(m.memory), m.tree, r) ==> OwnsData(m.memory, m.tree, r)
    ensures Doors(old(m.memory), m.tree, m.memory, true)
  {
    hide UsedFrames, WellFormed, OwnsData, Written, Walk, PhysByte, Doors;
    DoorsSelf(m.memory, m.tree, true);
    assert Written(m.memory, m.memory, a, Zeros(0)) by { WrittenNothing(m.memory, a); assert Zeros(0) == []; }
    var i := 0;
    while i < n / 8
      invariant 0 <= i <= n / 8
      invariant m.Valid() && |m.memory| == old(|m.memory|)
      invariant Written(old(m.memory), m.memory, a, Zeros(8 * i))
      invariant SameTranslations(old(m.memory), m.tree, m.memory)
      invariant forall r :: OwnsData(old(m.memory), m.tree, r) ==> OwnsData(m.memory, m.tree, r)
      invariant Doors(old(m.memory), m.tree, m.memory, true)
    {
      ghost var mem := m.memory;
      StillWritable(old(m.memory), mem, m.tree, a, n, 8 * i, 8);
      Store(m, a + 8 * i, Zeros(8));
      WrittenCompose(old(m.memory), mem, m.memory, a, Zeros(8 * i), Zeros(8));
      DoorsCompose(old(m.memory), m.tree, mem, m.tree, m.memory, true);
      assert Zeros(8 * i) + Zeros(8) == Zeros(8 * (i + 1));
      i := i + 1;
    }
    i := i * 8;
    while i < n
      invariant 0 <= i <= n
      invariant m.Valid() && |m.memory| == old(|m.memory|)
      invariant Written(old(m.memory), m.memory, a, Zeros(i))
      invariant SameTranslations(old(m.memory), m.tree, m.memory)
      invariant forall r :: OwnsData(old(m.memory), m.tree, r) ==> OwnsData(m.memory, m.tree, r)
      invariant Doors(old(m.memory), m.tree, m.memory, true)
    {
      ghost var mem := m.memory;
      StillWritable(old(m.memory), mem, m.tree, a, n, i, 1);
      Store(m, a + i, [0]);
      WrittenCompose(old(m.memory), mem, m.memory, a, Zeros(i), [0]);
      DoorsCompose(old(m.memory), m.tree, mem, m.tree, m.memory, true);
      assert Zeros(i) + [0] == Zeros(i + 1);
      i := i + 1;
    }
  }

  lemma StillWritable(mem: Memory, mem': Memory, tree: Tree, a: nat, n: nat, i: nat, k: nat)
    requires Writable(mem, tree, a, n) && |mem'| == |mem| && i + k <= n
    ensures Writable(mem', tree, a + i, k)
  {
    forall x: nat | a + i <= x < a + i + k ensures Plain(mem', tree, x / PAGE_SIZE) {
      assert Plain(mem, tree, x / PAGE_SIZE);
    }
  }

  // ----- segments -----

  datatype Segment = Segment(offset: nat, vaddr: nat, filesz: nat, memsz: nat, writable: bool)

  function PageCount(s: Segment): (n: nat)
    ensures s.memsz <= 4096 * n && (n > 0 ==> 4096 * (n - 1) < s.memsz)
  {
    s.memsz / PAGE_SIZE + (if s.memsz % PAGE_SIZE != 0 then 1 else 0)
  }

  function FirstPage(s: Segment): (p: nat)
    ensures 4096 * p <= s.vaddr < 4096 * (p + 1)
  {
    s.vaddr / PAGE_SIZE
  }

  predicate Covers(s: Segment, page: nat) {
    FirstPage(s) <= page < FirstPage(s) + PageCount(s)
  }

  /** What a segment's k-th byte should be, for a byte that the file has or that the file does not cover. */
  predicate Specified(s: Segment, file: seq<bv8>, k: nat) {
    k < s.memsz && (k < s.filesz ==> s.offset + k < |file|)
  }

  function ImageByte(s: Segment, file: seq<bv8>, k: nat): bv8
    requires Specified(s, file, k)
  {
    if k < s.filesz then file[s.offset + k] else 0
  }

  /** What a read delivers: as much of the file as there is. */
  function ReadBytes(file: seq<bv8>, offset: nat, size: nat): seq<bv8> {
    if offset >= |file| then []
    else if offset + size <= |file| then file[offset..offset + size]
    else file[offset..]
  }

  /** The segment's bytes lie in the frames from base on. */
  ghost predicate Placed(mem: Memory, base: nat, s: Segment, file: seq<bv8>) {
    forall k: nat :: Specified(s, file, k) ==> PhysByte(mem, base * PAGE_SIZE + k) == ImageByte(s, file, k)
  }

  lemma ReadThenZero(mem: Memory, mem1: Memory, mem2: Memory, base: nat, s: Segment, file: seq<bv8>)
    requires s.filesz <= s.memsz
    requires Written(mem, mem1, base * PAGE_SIZE, ReadBytes(file, s.offset, s.filesz))
    requires Written(mem1, mem2, base * PAGE_SIZE + s.filesz, Zeros(s.memsz - s.filesz))
    ensures Placed(mem2, base, s, file)
  {
    hide PhysByte;
  }

  lemma FramesWritable(mem: Memory, tree: Tree, base: nat, size: nat, n: nat)
    requires base + size <= |mem| && n <= size * PAGE_SIZE
    requires forall f :: f in Run(base, size) ==> NotTable(tree, f)
    ensures Writable(mem, tree, base * PAGE_SIZE, n)
  {
    forall x: nat | base * PAGE_SIZE <= x < base * PAGE_SIZE + n ensures Plain(mem, tree, x / PAGE_SIZE) {
      assert x / PAGE_SIZE in Run(base, size);
    }
  }

  lemma PagesHold(s: Segment)
    ensures s.memsz <= PageCount(s) * PAGE_SIZE
    ensures s.memsz > 0 ==> PageCount(s) > 0
  {
  }

  /** A page mapped in the lower half has a data frame of the space. */
  lemma DataFrame(mem: Memory, tree: Tree, root: nat, q: nat)
    requires WellFormed(mem, tree) && IsRoot(tree, root) && OwnsData(mem, tree, root)
    requires Lower(q) && Translate(mem, root, q).Some?
    ensures var f := Translate(mem, root, q).value.address; f in tree && tree[f].level == 0 && f < |mem|
  {
    SlotInTree(mem, tree, root, 4, q);
    var slot := Slot(mem, root, 4, q).value;
    assert NodeOk(mem, tree, root);
    assert LinkOkAtLeaf(mem, tree, slot.0, slot.1);
    assert NodeOk(mem, tree, EntryAt(mem, slot.0, slot.1).address);
  }

  /** Physical memory outside a run of frames is as before. */
  ghost predicate OutsideSame(mem: Memory, mem': Memory, base: nat, n: nat) {
    forall x: nat :: !InRun(base, n, x / PAGE_SIZE) ==> PhysByte(mem', x) == PhysByte(mem, x)
  }

  lemma WrittenInside(mem: Memory, mem': Memory, base: nat, n: nat, a: nat, data: seq<bv8>)
    requires Written(mem, mem', a, data) && base * PAGE_SIZE <= a && a + |data| <= (base + n) * PAGE_SIZE
    ensures OutsideSame(mem, mem', base, n)
  {
    hide PhysByte;
    forall x: nat | !InRun(base, n, x / PAGE_SIZE) ensures PhysByte(mem', x) == PhysByte(mem, x) {
      FrameOf(x, base, n);
    }
  }

  lemma FrameOf(x: nat, base: nat, n: nat)
    ensures InRun(base, n, x / PAGE_SIZE) <==> base * PAGE_SIZE <= x < (base + n) * PAGE_SIZE
  {
  }

  lemma Recombine(f: nat, o: nat)
    requires o < PAGE_SIZE
    ensures (f * PAGE_SIZE + o) / PAGE_SIZE == f && (f * PAGE_SIZE + o) % PAGE_SIZE == o
  {
  }

  /** A page outside the new range reads as before: its frame was in use already. */
  lemma OldByteKept(mem0: Memory, tree0: Tree, used0: set<nat>, mem1: Memory, tree1: Tree, mem3: Memory,
                    root: nat, page: nat, base: nat, n: nat, flags: Flags, v: nat)
    requires WellFormed(mem0, tree0) && IsRoot(tree0, root) && OwnsData(mem0, tree0, root) && tree0.Keys <= used0
    requires MapsRange(mem0, mem1, root, page, Frames(base, n), flags) && DataKept(mem0, tree0, used0, mem1, tree1)
    requires used0 !! Run(base, n) && OutsideSame(mem1, mem3, base, n) && |mem3| == |mem1|
    requires v / PAGE_SIZE < LOWER_PAGES && !(page <= v / PAGE_SIZE < page + n)
    requires Translate(mem3, root, v / PAGE_SIZE) == Translate(mem1, root, v / PAGE_SIZE)
    ensures VirtualByte(mem3, root, v) == VirtualByte(mem0, root, v)
  {
    hide WellFormed, OwnsData, Walk;
    var q, o := v / PAGE_SIZE, v % PAGE_SIZE;
    LowerPage(q);
    if Translate(mem0, root, q).Some? {
      DataFrame(mem0, tree0, root, q);
      var f := Translate(mem0, root, q).value.address;
      assert f in used0 && NotTable(tree0, f) && mem1[f] == mem0[f];
      assert !InRun(base, n, f) by { assert f !in Run(base, n); }
      Recombine(f, o);
      assert PhysByte(mem3, f * PAGE_SIZE + o) == PhysByte(mem1, f * PAGE_SIZE + o);
    }
  }

  /** What loading one segment does to the bytes and the translations of the lower half: the segment's
      bytes appear from the start of its first page on, and every other page is as before. */
  ghost predicate Loads(mem: Memory, mem': Memory, root: nat, s: Segment, file: seq<bv8>) {
    && (forall v: nat :: v / PAGE_SIZE < LOWER_PAGES && !Covers(s, v / PAGE_SIZE) ==> VirtualByte(mem', root, v) == VirtualByte(mem, root, v))
    && (forall k: nat :: Specified(s, file, k) ==> VirtualByte(mem', root, FirstPage(s) * PAGE_SIZE + k) == Some(ImageByte(s, file, k)))
    && (forall q: nat :: q < PAGES ==>
      if Covers(s, q) then Translate(mem', root, q).Some? && Translate(mem', root, q).value.flags == Flags(s.writable, true, false, false, false, false)
      else Translate(mem', root, q) == Translate(mem, root, q))
  }

  lemma NewByte(mem0: Memory, mem1: Memory, mem3: Memory, root: nat, s: Segment, file: seq<bv8>, base: nat, k: nat)
    requires MapsRange(mem0, mem1, root, FirstPage(s), Frames(base, PageCount(s)), Flags(s.writable, true, false, false, false, false))
    requires FirstPage(s) + PageCount(s) <= LOWER_PAGES
    requires Translate(mem3, root, FirstPage(s) + k / PAGE_SIZE) == Translate(mem1, root, FirstPage(s) + k / PAGE_SIZE)
    requires Placed(mem3, base, s, file) && Specified(s, file, k)
    ensures VirtualByte(mem3, root, FirstPage(s) * PAGE_SIZE + k) == Some(ImageByte(s, file, k))
  {
    hide Walk, PhysByte, ImageByte;
    var i, o := k / PAGE_SIZE, k % PAGE_SIZE;
    var q := FirstPage(s) + i;
    assert i < PageCount(s) by { PagesHold(s); }
    Recombine(q, o);
    assert FirstPage(s) * PAGE_SIZE + k == q * PAGE_SIZE + o;
    assert Translate(mem1, root, q).value.address == base + i;
    assert (base + i) * PAGE_SIZE + o == base * PAGE_SIZE + k;
  }

  lemma SegmentLoads(mem0: Memory, tree0: Tree, used0: set<nat>, mem1: Memory, tree1: Tree, mem3: Memory,
                     root: nat, s: Segment, file: seq<bv8>, base: nat)
    requires WellFormed(mem0, tree0) && IsRoot(tree0, root) && OwnsData(mem0, tree0, root) && tree0.Keys <= used0
    requires FirstPage(s) + PageCount(s) <= LOWER_PAGES
    requires MapsRange(mem0, mem1, root, FirstPage(s), Frames(base, PageCount(s)), Flags(s.writable, true, false, false, false, false))
    requires DataKept(mem0, tree0, used0, mem1, tree1) && used0 !! Run(base, PageCount(s))
    requires IsRoot(tree1, root) && SameTranslations(mem1, tree1, mem3) && |mem3| == |mem1|
    requires OutsideSame(mem1, mem3, base, PageCount(s)) && Placed(mem3, base, s, file)
    ensures Loads(mem0, mem3, root, s, file)
  {
    hide WellFormed, OwnsData, Walk, PhysByte, ImageByte, DataKept, MapsRange, VirtualByte, Specified;
    assert forall q: nat :: Translate(mem3, root, q) == Translate(mem1, root, q);
    forall v: nat | v / PAGE_SIZE < LOWER_PAGES && !Covers(s, v / PAGE_SIZE)
      ensures VirtualByte(mem3, root, v) == VirtualByte(mem0, root, v)
    {
      OldByteKept(mem0, tree0, used0, mem1, tree1, mem3, root, FirstPage(s), base, PageCount(s), Flags(s.writable, true, false, false, false, false), v);
    }
    forall k: nat | Specified(s, file, k)
      ensures VirtualByte(mem3, root, FirstPage(s) * PAGE_SIZE + k) == Some(ImageByte(s, file, k))
    {
      NewByte(mem0, mem1, mem3, root, s, file, base, k);
    }
    forall q: nat | q < PAGES
      ensures if Covers(s, q) then Translate(mem3, root, q).Some? && Translate(mem3, root, q).value.flags == Flags(s.writable, true, false, false, false, false)
              else Translate(mem3, root, q) == Translate(mem0, root, q)
    {
      RangeAt(mem0, mem1, root, s, base, q);
    }
  }

  lemma RangeAt(mem0: Memory, mem1: Memory, root: nat, s: Segment, base: nat, q: nat)
    requires MapsRange(mem0, mem1, root, FirstPage(s), Frames(base, PageCount(s)), Flags(s.writable, true, false, false, false, false)) && q < PAGES
    ensures if Covers(s, q) then Translate(mem1, root, q).Some? && Translate(mem1, root, q).value.flags == Flags(s.writable, true, false, false, false, false)
            else Translate(mem1, root, q) == Translate(mem0, root, q)
  {
    hide Walk;
  }

  /** One turn of the loop in loadExecutable. False is a failed assert or the allocator's panic: the file
      part is longer than the segment, the segment is empty, the file has nothing to read, or frames ran out. */
  method LoadSegment(m: Mmu, root: nat, s: Segment, file: seq<bv8>) returns (ok: bool)
    requires Owner(m, root) && FirstPage(s) + PageCount(s) <= LOWER_PAGES
    modifies m`memory, m`tree, m.frames.bytes
    ensures m.Valid()
    ensures ok ==> Owner(m, root) && Loads(old(m.memory), m.memory, root, s, file)
    ensures ok ==> forall r :: IsRoot(m.tree, r) <==> IsRoot(old(m.tree), r)
    ensures ok && Below64TiB(FirstPage(s), PageCount(s)) ==> Doors(old(m.memory), old(m.tree), m.memory, true)
    ensures ok ==> s.filesz <= s.memsz && s.memsz > 0 && (s.filesz > 0 ==> s.offset < |file|)
    ensures !ok ==> s.filesz > s.memsz || s.memsz == 0 || (s.filesz > 0 && s.offset >= |file|) || FramesShort(m, PageCount(s))
  {
    hide UsedFrames, WellFormed, OwnsData, Written, Walk, PhysByte, MapsRange, DataKept, FramesShort, Loads, Specified, ReadBytes, Zeros, HeldIn, Doors, Below64TiB;
    ghost var mem0, tree0, used0 := m.memory, m.tree, m.frames.Used();
    var n := PageCount(s);
    PagesHold(s);
    if s.memsz < s.filesz || n == 0 { return false; }
    var base := AllocSpace(m, FirstPage(s), n, Flags(s.writable, true, false, false, false, false), root);
    if base.None? { return false; }
    ghost var mem1 := m.memory;
    var a := base.value * PAGE_SIZE;
    var data := ReadBytes(file, s.offset, s.filesz);
    ReadLength(file, s.offset, s.filesz);
    FramesWritable(m.memory, m.tree, base.value, n, s.memsz);
    if s.filesz > 0 {
      if |data| == 0 { return false; }
      StillWritable(mem1, mem1, m.tree, a, s.memsz, 0, |data|);
      Store(m, a, data);
    } else {
      WrittenNothing(m.memory, a);
      DoorsSelf(m.memory, m.tree, true);
    }
    ghost var mem2 := m.memory;
    assert Written(mem1, mem2, a, data);
    assert |mem2| == |mem1| by { WrittenSize(mem1, mem2, a, data); }
    StillWritable(mem1, mem2, m.tree, a, s.memsz, s.filesz, s.memsz - s.filesz);
    ZeroFill(m, a + s.filesz, s.memsz - s.filesz);
    ZerosLength(s.memsz - s.filesz);
    WrittenSize(mem2, m.memory, a + s.filesz, Zeros(s.memsz - s.filesz));
    WrittenInside(mem1, mem2, base.value, n, a, data);
    WrittenInside(mem2, m.memory, base.value, n, a + s.filesz, Zeros(s.memsz - s.filesz));
    ReadThenZero(mem1, mem2, m.memory, base.value, s, file);
    SegmentLoads(mem0, tree0, used0, mem1, m.tree, m.memory, root, s, file, base.value);
    DoorsCompose(mem1, m.tree, mem2, m.tree, m.memory, true);
    if Below64TiB(FirstPage(s), PageCount(s)) { DoorsCompose(mem0, tree0, mem1, m.tree, m.memory, true); }
    ok := true;
  }

  lemma ReadLength(file: seq<bv8>, offset: nat, size: nat)
    ensures |ReadBytes(file, offset, size)| <= size
    ensures |ReadBytes(file, offset, size)| == 0 <==> size == 0 || offset >= |file|
    ensures size == 0 ==> ReadBytes(file, offset, size) == []
  {
  }

  lemma ZerosLength(n: nat)
    ensures |Zeros(n)| == n
  {
  }

  lemma WrittenSize(mem: Memory, mem': Memory, a: nat, data: seq<bv8>)
    requires Written(mem, mem', a, data)
    ensures |mem'| == |mem|
  {
  }

  // ----- the whole executable -----

  /** A later segment, among the first n, is loaded over the page. */
  predicate Overlaid(segments: seq<Segment>, i: nat, n: nat, q: nat)
    requires n <= |segments|
  {
    exists j :: i < j < n && Covers(segments[j], q)
  }

  predicate Untouched(segments: seq<Segment>, n: nat, q: nat)
    requires n <= |segments|
  {
    forall j :: 0 <= j < n ==> !Covers(segments[j], q)
  }

  function AddressOf(s: Segment, k: nat): nat {
    FirstPage(s) * PAGE_SIZE + k
  }

  ghost predicate ByteLoaded(mem: Memory, root: nat, segments: seq<Segment>, n: nat, file: seq<bv8>, i: nat, k: nat)
    requires i < n <= |segments|
  {
    Specified(segments[i], file, k) && !Overlaid(segments, i, n, AddressOf(segments[i], k) / PAGE_SIZE) ==>
      VirtualByte(mem, root, AddressOf(segments[i], k)) == Some(ImageByte(segments[i], file, k))
  }

  /** After the first n segments: the last segment on a page decides what is there, and pages of no
      segment are as before. */
  ghost predicate Loaded(mem0: Memory, mem: Memory, root: nat, segments: seq<Segment>, n: nat, file: seq<bv8>)
    requires n <= |segments|
  {
    && (forall i: nat, k: nat :: i < n ==> ByteLoaded(mem, root, segments, n, file, i, k))
    && (forall v: nat :: v / PAGE_SIZE < LOWER_PAGES && Untouched(segments, n, v / PAGE_SIZE) ==> VirtualByte(mem, root, v) == VirtualByte(mem0, root, v))
    && (forall i: nat, q: nat :: i < n && q < PAGES ==> EntryLoaded(mem, root, segments, n, i, q))
    && (forall q: nat :: q < PAGES && Untouched(segments, n, q) ==> Translate(mem, root, q) == Translate(mem0, root, q))
  }

  /** A page whose last segment is the i-th is mapped for the program, to be written exactly if the segment is. */
  ghost predicate EntryLoaded(mem: Memory, root: nat, segments: seq<Segment>, n: nat, i: nat, q: nat)
    requires i < n <= |segments|
  {
    Covers(segments[i], q) && !Overlaid(segments, i, n, q) ==>
      && Translate(mem, root, q).Some?
      && Translate(mem, root, q).value.flags == Flags(segments[i].writable, true, false, false, false, false)
  }

  predicate InUserHalf(s: Segment) {
    FirstPage(s) + PageCount(s) <= LOWER_PAGES
  }

  lemma ByteStays(mem: Memory, mem': Memory, root: nat, segments: seq<Segment>, n: nat, file: seq<bv8>, i: nat, k: nat)
    requires i < n < |segments| && ByteLoaded(mem, root, segments, n, file, i, k)
    requires Loads(mem, mem', root, segments[n], file) && InUserHalf(segments[i])
    ensures ByteLoaded(mem', root, segments, n + 1, file, i, k)
  {
    hide VirtualByte, ImageByte;
    var s, v := segments[i], AddressOf(segments[i], k);
    if Specified(s, file, k) && !Overlaid(segments, i, n + 1, v / PAGE_SIZE) {
      PagesHold(s);
      FrameOf(v, FirstPage(s), PageCount(s));
      assert InRun(FirstPage(s), PageCount(s), v / PAGE_SIZE);
      assert !Covers(segments[n], v / PAGE_SIZE);
    }
  }

  lemma LoadedStep(mem0: Memory, mem: Memory, mem': Memory, root: nat, segments: seq<Segment>, n: nat, file: seq<bv8>)
    requires n < |segments| && Loaded(mem0, mem, root, segments, n, file) && Loads(mem, mem', root, segments[n], file)
    requires forall i :: 0 <= i < |segments| ==> InUserHalf(segments[i])
    ensures Loaded(mem0, mem', root, segments, n + 1, file)
  {
    var n' := n + 1;
    forall i: nat, k: nat | i < n' ensures ByteLoaded(mem', root, segments, n', file, i, k) {
      if i < n {
        ByteStays(mem, mem', root, segments, n, file, i, k);
      } else {
        NewestByte(mem, mem', root, segments, n, file, k);
      }
    }
    hide VirtualByte, ByteLoaded, Covers;
    forall v: nat | v / PAGE_SIZE < LOWER_PAGES && Untouched(segments, n + 1, v / PAGE_SIZE)
      ensures VirtualByte(mem', root, v) == VirtualByte(mem0, root, v)
    {
      assert Untouched(segments, n, v / PAGE_SIZE) && !Covers(segments[n], v / PAGE_SIZE);
    }
    EntriesStep(mem0, mem, mem', root, segments, n, n', file);
  }

  lemma EntriesStep(mem0: Memory, mem: Memory, mem': Memory, root: nat, segments: seq<Segment>, n: nat, n': nat, file: seq<bv8>)
    requires n < |segments| && n' == n + 1 && Loaded(mem0, mem, root, segments, n, file) && Loads(mem, mem', root, segments[n], file)
    ensures forall i: nat, q: nat :: i < n' && q < PAGES ==> EntryLoaded(mem', root, segments, n', i, q)
    ensures forall q: nat :: q < PAGES && Untouched(segments, n', q) ==> Translate(mem', root, q) == Translate(mem0, root, q)
  {
    hide VirtualByte, ByteLoaded, Covers, Walk, ImageByte, Specified;
    forall i: nat, q: nat | i < n' && q < PAGES ensures EntryLoaded(mem', root, segments, n', i, q) {
      if i < n && Covers(segments[i], q) && !Overlaid(segments, i, n', q) {
        assert !Covers(segments[n], q) && EntryLoaded(mem, root, segments, n, i, q);
      }
    }
    forall q: nat | q < PAGES && Untouched(segments, n', q) ensures Translate(mem', root, q) == Translate(mem0, root, q) {
      assert Untouched(segments, n, q) && !Covers(segments[n], q);
    }
  }

  lemma NewestByte(mem: Memory, mem': Memory, root: nat, segments: seq<Segment>, n: nat, file: seq<bv8>, k: nat)
    requires n < |segments| && Loads(mem, mem', root, segments[n], file)
    ensures ByteLoaded(mem', root, segments, n + 1, file, n, k)
  {
    hide VirtualByte, ImageByte, Specified;
  }

  predicate PageDisjoint(segments: seq<Segment>) {
    forall i, j :: 0 <= i < j < |segments| ==> PagesApart(segments[i], segments[j])
  }

  predicate PagesApart(s: Segment, t: Segment) {
    FirstPage(s) + PageCount(s) <= FirstPage(t) || FirstPage(t) + PageCount(t) <= FirstPage(s)
  }

  /** The image that an executable of page-aligned, page-disjoint segments promises. */
  ghost predicate HoldsImage(mem: Memory, root: nat, segments: seq<Segment>, file: seq<bv8>) {
    forall i: nat, k: nat :: i < |segments| && Specified(segments[i], file, k) ==>
      VirtualByte(mem, root, segments[i].vaddr + k) == Some(if k < segments[i].filesz then file[segments[i].offset + k] else 0)
  }

  lemma LoadedIsImage(mem0: Memory, mem: Memory, root: nat, segments: seq<Segment>, file: seq<bv8>)
    requires Loaded(mem0, mem, root, segments, |segments|, file) && PageDisjoint(segments)
    requires forall i :: 0 <= i < |segments| ==> segments[i].vaddr % PAGE_SIZE == 0
    ensures HoldsImage(mem, root, segments, file)
  {
    forall i: nat, k: nat | i < |segments| && Specified(segments[i], file, k)
      ensures VirtualByte(mem, root, segments[i].vaddr + k) == Some(ImageByte(segments[i], file, k))
    {
      ImageByteThere(mem, root, segments, file, i, k);
    }
  }

  lemma ImageByteThere(mem: Memory, root: nat, segments: seq<Segment>, file: seq<bv8>, i: nat, k: nat)
    requires i < |segments| && Specified(segments[i], file, k) && PageDisjoint(segments) && segments[i].vaddr % PAGE_SIZE == 0
    requires ByteLoaded(mem, root, segments, |segments|, file, i, k)
    ensures VirtualByte(mem, root, segments[i].vaddr + k) == Some(ImageByte(segments[i], file, k))
  {
    hide VirtualByte, ImageByte;
    var s, v := segments[i], AddressOf(segments[i], k);
    assert v == s.vaddr + k;
    PagesHold(s);
    FrameOf(v, FirstPage(s), PageCount(s));
    assert InRun(FirstPage(s), PageCount(s), v / PAGE_SIZE);
    forall j | i < j < |segments| ensures !Covers(segments[j], v / PAGE_SIZE) {
      assert PagesApart(segments[i], segments[j]);
    }
  }

  /** Every walk in the lower half lets the program through, as in a new space. */
  ghost predicate WideOpen(mem: Memory, root: nat) {
    forall q: nat :: q < LOWER_PAGES ==> Open(mem, root, 4, q)
  }

  /** The program may read the page, or read and write it. */
  ghost predicate MayRead(mem: Memory, root: nat, q: nat) {
    Open(mem, root, 4, q) && Translate(mem, root, q).Some? && Translate(mem, root, q).value.flags.user
  }

  ghost predicate MayWrite(mem: Memory, root: nat, q: nat) {
    MayRead(mem, root, q) && Translate(mem, root, q).value.flags.write
  }

  /** The program may read each page of a segment, and write it exactly if the last segment there is writable. */
  ghost predicate Accessible(mem: Memory, root: nat, segments: seq<Segment>) {
    forall i: nat, q: nat :: i < |segments| && Covers(segments[i], q) && !Overlaid(segments, i, |segments|, q) ==>
      MayRead(mem, root, q) && (MayWrite(mem, root, q) <==> segments[i].writable)
  }

  lemma LoadedIsOpen(mem0: Memory, tree0: Tree, mem: Memory, root: nat, segments: seq<Segment>, file: seq<bv8>)
    requires Loaded(mem0, mem, root, segments, |segments|, file) && IsRoot(tree0, root)
    requires Doors(mem0, tree0, mem, true) && WideOpen(mem0, root)
    requires forall i :: 0 <= i < |segments| ==> InUserHalf(segments[i])
    ensures WideOpen(mem, root) && Accessible(mem, root, segments)
  {
    hide Open, Walk, VirtualByte, ByteLoaded, Slot;
    forall q: nat | q < LOWER_PAGES ensures Open(mem, root, 4, q) {
      DoorsAt(mem0, tree0, mem, true, root, q);
    }
    forall i: nat, q: nat | i < |segments| && Covers(segments[i], q) && !Overlaid(segments, i, |segments|, q)
      ensures MayRead(mem, root, q) && (MayWrite(mem, root, q) <==> segments[i].writable)
    {
      assert EntryLoaded(mem, root, segments, |segments|, i, q);
    }
  }

  /** The segment loop: every byte of every segment is where it belongs, unless a later segment lies on
      the same page; false as in LoadSegment. */
  method LoadExecutable(m: Mmu, root: nat, segments: seq<Segment>, file: seq<bv8>) returns (ok: bool)
    requires Owner(m, root) && forall i :: 0 <= i < |segments| ==> InUserHalf(segments[i])
    modifies m`memory, m`tree, m.frames.bytes
    ensures m.Valid()
    ensures ok ==> Owner(m, root) && Loaded(old(m.memory), m.memory, root, segments, |segments|, file)
    ensures ok && PageDisjoint(segments) && (forall i :: 0 <= i < |segments| ==> segments[i].vaddr % PAGE_SIZE == 0) ==>
      HoldsImage(m.memory, root, segments, file)
    ensures ok && (forall i :: 0 <= i < |segments| ==> Below64TiB(FirstPage(segments[i]), PageCount(segments[i]))) && WideOpen(old(m.memory), root) ==>
      WideOpen(m.memory, root) && Accessible(m.memory, root, segments)
    ensures !ok ==> exists i :: 0 <= i < |segments| && var s := segments[i];
      s.filesz > s.memsz || s.memsz == 0 || (s.filesz > 0 && s.offset >= |file|) || FramesShort(m, PageCount(s))
    ensures ok ==> forall i :: 0 <= i < |segments| ==> var s := segments[i];
      s.filesz <= s.memsz && s.memsz > 0 && (s.filesz > 0 ==> s.offset < |file|)
  {
    hide FramesShort, Loaded, Loads, HoldsImage, WellFormed, OwnsData, UsedFrames, Covers, Doors, Below64TiB, WideOpen, Accessible;
    ghost var low := forall i :: 0 <= i < |segments| ==> Below64TiB(FirstPage(segments[i]), PageCount(segments[i]));
    ghost var mem0, tree0 := m.memory, m.tree;
    DoorsSelf(mem0, tree0, true);
    assert Loaded(m.memory, m.memory, root, segments, 0, file) by { LoadedNothing(m.memory, root, segments, file); }
    for i := 0 to |segments|
      invariant Owner(m, root)
      invariant Loaded(old(m.memory), m.memory, root, segments, i, file)
      invariant (forall r :: IsRoot(m.tree, r) <==> IsRoot(tree0, r)) && (low ==> Doors(mem0, tree0, m.memory, true))
      invariant forall j :: 0 <= j < i ==> var s := segments[j]; s.filesz <= s.memsz && s.memsz > 0 && (s.filesz > 0 ==> s.offset < |file|)
    {
      ghost var mem, tree := m.memory, m.tree;
      ok := LoadSegment(m, root, segments[i], file);
      if !ok { return; }
      if low { DoorsCompose(mem0, tree0, mem, tree, m.memory, true); }
      LoadedStep(old(m.memory), mem, m.memory, root, segments, i, file);
    }
    if PageDisjoint(segments) && (forall i :: 0 <= i < |segments| ==> segments[i].vaddr % PAGE_SIZE == 0) {
      LoadedIsImage(old(m.memory), m.memory, root, segments, file);
    }
    if low && WideOpen(mem0, root) { LoadedIsOpen(mem0, tree0, m.memory, root, segments, file); }
    ok := true;
  }

  lemma LoadedNothing(mem: Memory, root: nat, segments: seq<Segment>, file: seq<bv8>)
    ensures Loaded(mem, mem, root, segments, 0, file)
  {
  }
}

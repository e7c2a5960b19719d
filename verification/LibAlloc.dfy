/** The kernel heap: kmalloc, kfree and krealloc over the page hook. Structs live in maps keyed by
    their address, as the C structs live in memory; NULL is 0. */
module LibAlloc {
  import opened Common
  import opened FirstFit
  import opened HeapShape
  import HeapPages
  import opened Mem

  const ALIGNMENT: nat := 16
  const ALIGN_INFO: nat := 16
  const PAGE_COUNT: nat := 16
  const HEAP: nat := HeapPages.HEAP_ADDRESS
  const HEAP_BYTES: nat := HeapPages.HEAP_PAGES * PAGE

  // ----- alignment -----

  /** The pointer that ALIGN makes of p. */
  function Align(p: nat): (q: nat)
    ensures q % ALIGNMENT == 0
    ensures p + ALIGN_INFO <= q < p + ALIGN_INFO + ALIGNMENT
  {
    var q := p + ALIGN_INFO;
    var diff := q % ALIGNMENT;
    if diff != 0 then q + (ALIGNMENT - diff) else q
  }

  /** What UNALIGN makes of q when `shift` is stored before it. */
  function Unalign(q: nat, shift: nat): int {
    if shift < ALIGNMENT + ALIGN_INFO then q - shift else q
  }

  function Pointer(c: Chunk): nat {
    Align(c.addr + HEADER)
  }

  /** Every pointer is 16-aligned; the bytes asked for and the shift byte lie in the chunk's own
      payload; and the stored shift leads back to the start of the payload. */
  lemma PointerInChunk(c: Chunk)
    requires c.req + 32 <= c.size
    ensures Pointer(c) % 16 == 0
    ensures c.addr + HEADER <= Pointer(c) - ALIGN_INFO && Pointer(c) + c.req < End(c)
    ensures Unalign(Pointer(c), Pointer(c) - (c.addr + HEADER)) == c.addr + HEADER
  {
  }

  // ----- where things are -----

  predicate InWindow(r: Region) {
    HEAP <= r.addr && (r.addr - HEAP) % PAGE == 0 && Limit(r) <= HEAP + HEAP_BYTES
  }

  predicate InPages(r: Region, i: nat) {
    r.addr <= HEAP + i * PAGE < Limit(r)
  }

  ghost predicate Covered(shape: Shape, i: nat) {
    exists j :: 0 <= j < |shape| && InPages(shape[j], i)
  }

  /** The page hook's table has an entry for exactly the pages of the regions. */
  ghost predicate TakenBy(pages: seq<nat>, shape: Shape) {
    && |pages| == HeapPages.HEAP_PAGES
    && forall i :: 0 <= i < |pages| ==> (pages[i] != 0 <==> Covered(shape, i))
  }

  ghost predicate Placed(shape: Shape) {
    forall j :: 0 <= j < |shape| ==> InWindow(shape[j])
  }

  function Shift(c: Chunk): (s: nat)
    ensures 16 <= s < 32
  {
    Pointer(c) - (c.addr + HEADER)
  }

  ghost predicate ShiftStored(bytes: seq<byte>, c: Chunk) {
    && HEAP + ALIGN_INFO <= Pointer(c) && Pointer(c) - HEAP + c.req <= |bytes|
    && bytes[Pointer(c) - ALIGN_INFO - HEAP] == Shift(c)
  }

  /** The bytes that belong to the owner of a chunk. */
  ghost function Data(bytes: seq<byte>, c: Chunk): seq<byte>
    requires HEAP <= Pointer(c) && Pointer(c) - HEAP + c.req <= |bytes|
  {
    bytes[Pointer(c) - HEAP..Pointer(c) - HEAP + c.req]
  }

  ghost predicate Listed(shape: Shape, a: nat) {
    exists j :: 0 <= j < |shape| && shape[j].addr == a
  }

  ghost predicate NonEmpty(shape: Shape) {
    forall j :: 0 <= j < |shape| ==> shape[j].chunks != []
  }

  lemma ChunkPlace(shape: Shape, c: Chunk)
    requires ShapeOk(shape) && Placed(shape) && c in Chunks(shape)
    ensures HEAP + HEADER <= c.addr && End(c) <= HEAP + HEAP_BYTES && c.req + 32 <= c.size
  {
    var j, k :| 0 <= j < |shape| && 0 <= k < |shape[j].chunks| && shape[j].chunks[k] == c;
    assert RegionOk(shape[j]) && InWindow(shape[j]);
    ChunkInside(shape[j], k);
  }

  /** Distinct live chunks share no byte, headers and payloads alike. */
  lemma LiveChunksApart(shape: Shape, c: Chunk, d: Chunk)
    requires ShapeOk(shape) && c in Chunks(shape) && d in Chunks(shape) && c != d
    ensures End(c) <= d.addr || End(d) <= c.addr
  {
    hide ShapeOk;
    var i, k :| 0 <= i < |shape| && 0 <= k < |shape[i].chunks| && shape[i].chunks[k] == c;
    var j, l :| 0 <= j < |shape| && 0 <= l < |shape[j].chunks| && shape[j].chunks[l] == d;
    ChunksApart(shape, i, k, j, l);
  }

  // ----- pages needed for a request -----

  function PagesNeeded(size: nat): (st: nat)
    ensures st >= 16 && 4096 * st >= size + 80 && (st == 16 || 4096 * (st - 1) < size + 80)
  {
    var st := size + HEADER + HEADER;
    var n := if st % PAGE == 0 then st / PAGE else st / PAGE + 1;
    if n < PAGE_COUNT then PAGE_COUNT else n
  }

  ghost predicate NoRoomAnywhere(shape: Shape, need: nat) {
    forall j :: 0 <= j < |shape| ==> !HasRoom(shape[j], need)
  }

  class Heap {
    const hook: HeapPages.PageHook
    var majors: map<nat, Major>
    var minors: map<nat, Minor>
    var memRoot: nat
    var bestBet: nat
    var inUse: int
    var allocatedBytes: int
    var bytes: seq<byte>
    ghost var shape: Shape

    constructor (h: HeapPages.PageHook, memory: seq<byte>)
      requires h.Valid() && |memory| == HEAP_BYTES
      requires forall i :: 0 <= i < HeapPages.HEAP_PAGES && i < h.physicalPages.Length ==> h.physicalPages[i] == 0
      ensures Valid() && hook == h && Chunks(shape) == {}
    {
      hide HeapPages.PageHook.Valid;
      hook, bytes := h, memory;
      majors, minors, memRoot, bestBet, inUse, allocatedBytes, shape := map[], map[], 0, 0, 0, 0, [];
      new;
      HookTableLength(h);
    }

    /** The structs represent the shape, the counters are its sums, and the hook's table covers
        its pages. */
    ghost predicate Consistent()
      reads this, hook, hook.mmu, hook.mmu.frames.bytes, hook.physicalPages
    {
      && hook.Valid()
      && ShapeOk(shape) && Placed(shape) && TakenBy(hook.physicalPages[..], shape)
      && Represents(majors, minors, shape)
      && memRoot == AddrAt(shape, 0)
      && (bestBet == 0 || Listed(shape, bestBet))
      && inUse == TotalPayload(shape) && allocatedBytes == TotalSize(shape)
      && |bytes| == HEAP_BYTES
      && forall c :: c in Chunks(shape) ==> ShiftStored(bytes, c)
    }

    ghost predicate Valid()
      reads this, hook, hook.mmu, hook.mmu.frames.bytes, hook.physicalPages
    {
      Consistent() && NonEmpty(shape)
    }

    /** Writes the structs of a new minor at address a between its neighbours. */
    method LinkStructs(maj: nat, prev: nat, next: nat, a: nat, size: nat, req: nat)
      requires maj in majors && (prev != 0 ==> prev in minors) && (next != 0 ==> next in minors)
      requires a != prev && a != next
      modifies `majors, `minors
      ensures minors == Spliced(old(minors), a, Minor(prev, next, maj, MAGIC, size, req))
      ensures majors == old(majors)[maj := old(majors)[maj].(usage := old(majors)[maj].usage + size + HEADER,
                                                             first := if prev == 0 then a else old(majors)[maj].first)]
    {
      minors := minors[a := Minor(prev, next, maj, MAGIC, size, req)];
      if prev != 0 {
        minors := minors[prev := minors[prev].(next := a)];
      } else {
        majors := majors[maj := majors[maj].(first := a)];
      }
      if next != 0 {
        minors := minors[next := minors[next].(prev := a)];
      }
      majors := majors[maj := majors[maj].(usage := majors[maj].usage + size + HEADER)];
    }

    /** Links a new minor at address a and aligns the pointer handed out; the part that cases 2, 3,
        4.1 and 4.2 of kmalloc have in common. */
    method Link(maj: nat, prev: nat, next: nat, a: nat, size: nat, req: nat, ghost j: nat, ghost k: nat) returns (p: nat)
      requires Consistent() && j < |shape| && k <= |shape[j].chunks| && maj == shape[j].addr
      requires prev == ChunkAddr(shape[j], k - 1) && next == ChunkAddr(shape[j], k)
      requires a == Lo(shape[j], k) && a + HEADER + size <= Hi(shape[j], k) && size == req + 32
      modifies `majors, `minors, `inUse, `bytes, `shape
      ensures Consistent()
      ensures Allocated(old(shape), old(bytes), shape, bytes, Chunk(a, size, req)) && p == Pointer(Chunk(a, size, req))
      ensures shape == old(shape[j := Inserted(shape[j], k, Chunk(a, size, req))])
    {
      hide ShapeOk, Represents, Placed, TakenBy, Covered, TotalPayload, TotalSize, Usage, Lo, Hi, Inserted, Chunks, ShiftStored, Data,
        Spliced, MinorsOf, SameData, ChunkAddr, HeapPages.PageHook.Valid;
      ghost var c, shape0, r := Chunk(a, size, req), shape, Inserted(shape[j], k, Chunk(a, size, req));
      InsertFacts(majors, minors, shape, hook.physicalPages[..], j, k, c);
      LinkStructs(maj, prev, next, a, size, req);
      inUse := inUse + size;
      p := Align(a + HEADER);
      shape := shape[j := r];
      StoreShift(shape0, shape, bytes, c);
      bytes := bytes[p - ALIGN_INFO - HEAP := p - (a + HEADER)];
    }

    /** allocate_new_page, and linking the new major after `last` (or making it the root). */
    method Grow(last: nat, size: nat) returns (r: HeapPages.Block)
      requires Consistent() && last == AddrAt(shape, |shape| - 1)
      modifies `majors, `memRoot, `allocatedBytes, `shape, hook.mmu`memory, hook.mmu`tree, hook.mmu.frames.bytes, hook.physicalPages
      ensures r.Panic? ==> hook.mmu.OutOfFrames()
      ensures r.Null? ==> Consistent() && shape == old(shape)
      ensures r.Null? ==> NoRun(HeapPages.FreeCells(hook.physicalPages[..]), Anywhere(), 0, HeapPages.HEAP_PAGES, PagesNeeded(size))
      ensures r.At? ==> Consistent() && shape == old(shape) + [Region(r.address, PagesNeeded(size), [])]
      ensures r.At? ==> RoomAt(Region(r.address, PagesNeeded(size), []), 0, size + HEADER)
    {
      hide ShapeOk, Represents, Placed, TakenBy, Covered, TotalPayload, TotalSize, Usage, Chunks, ShiftStored, Data,
        NoRun, IsFirst, HeapPages.Backed, HeapPages.FramesOf, HeapPages.FreeCells, MajorsWith, AddrAt, HeapPages.PageHook.Valid;
      var st := PagesNeeded(size);
      ghost var pages := hook.physicalPages[..];
      r := hook.Alloc(st);
      if !r.At? { return; }
      var a := r.address;
      GrowFacts(majors, minors, shape, pages, hook.physicalPages[..], a, st);
      LinkMajor(majors, last, a, st);
      majors := majors[a := Major(0, 0, st, st * PAGE, HEADER, 0)];
      allocatedBytes := allocatedBytes + st * PAGE;
      if last == 0 {
        memRoot := a;
      } else {
        majors := majors[last := majors[last].(next := a)];
        majors := majors[a := majors[a].(prev := last)];
      }
      shape := shape + [Region(a, st, [])];
    }

    /** Cases 2, 3 and 4 of kmalloc: the first gap of one major that is large enough. */
    method Place(maj: nat, size: nat, req: nat, ghost j: nat) returns (p: Option<nat>, ghost c: Chunk)
      requires Consistent() && j < |shape| && maj == shape[j].addr && size == req + 32
      requires shape[j].chunks == [] ==> RoomAt(shape[j], 0, size + HEADER)
      modifies `majors, `minors, `inUse, `bytes, `shape
      ensures Consistent()
      ensures p.None? ==> unchanged(this) && !HasRoom(shape[j], size + HEADER)
      ensures p.Some? ==> Allocated(old(shape), old(bytes), shape, bytes, c) && p.value == Pointer(c) && c.size == size && c.req == req
      ensures p.Some? ==> |shape| == |old(shape)| && shape[j].chunks != [] && shape == old(shape)[j := shape[j]]
      ensures p.Some? ==> Leftmost(old(shape)[j], shape[j], c, size + HEADER)
    {
      hide ShapeOk, Represents, Placed, TakenBy, Covered, TotalPayload, TotalSize, Usage, Chunks, ShiftStored, Data, MinorsOf,
        HeapPages.PageHook.Valid, Allocated, Listed, AddrAt, Leftmost;
      MajorKnown(majors, minors, shape, j);
      RegionKnown(shape, j);
      ChunkAddrsDistinct(shape[j]);
      var need := size + HEADER;
      c := Chunk(maj + HEADER, size, req);
      var first := majors[maj].first;
      if first == 0 {
        var q := Link(maj, 0, 0, maj + HEADER, size, req, j, 0);
        LeftmostIs(old(shape)[j], 0, c, need);
        return Some(q), c;
      }
      if first - maj - HEADER >= need {
        var q := Link(maj, 0, first, maj + HEADER, size, req, j, 0);
        LeftmostIs(old(shape)[j], 0, c, need);
        return Some(q), c;
      }
      var min := first;
      ghost var k := 0;
      while min != 0
        invariant unchanged(this)
        invariant k <= |shape[j].chunks| && min == ChunkAddr(shape[j], k)
        invariant forall i :: 0 <= i <= k ==> !RoomAt(shape[j], i, need)
        decreases |shape[j].chunks| - k
      {
        MinorKnown(minors, shape[j], k);
        var next := minors[min].next;
        var limit := if next == 0 then maj + majors[maj].size else next;
        var diff := limit - min - HEADER - minors[min].size;
        if diff >= need {
          c := Chunk(min + HEADER + minors[min].size, size, req);
          var q := Link(maj, min, next, min + HEADER + minors[min].size, size, req, j, k + 1);
          LeftmostIs(old(shape)[j], k + 1, c, need);
          return Some(q), c;
        }
        min := next;
        k := k + 1;
      }
      assert !HasRoom(shape[j], need);
      p := None;
    }

    /** What a look at the major at place j of the list shows. */
    lemma Look(j: nat)
      requires Consistent() && j < |shape|
      ensures shape[j].addr in majors && majors[shape[j].addr] == MajorOf(shape, j) && shape[j].addr > 0
      ensures majors[shape[j].addr].usage <= majors[shape[j].addr].size
      ensures memRoot == shape[0].addr && shape[0].addr > 0 && (j + 1 < |shape| ==> shape[j + 1].addr > 0)
      ensures majors[shape[j].addr].size - majors[shape[j].addr].usage < majors[shape[j].addr].size
      ensures majors[shape[j].addr].size - majors[shape[j].addr].usage == Spare(shape[j])
    {
      MajorKnown(majors, minors, shape, j);
      RegionFree(shape, j);
      RegionAddrsPositive(shape);
    }

    lemma LookEmpty(j: nat)
      requires Consistent() && j < |shape|
      ensures ChunkAddr(shape[j], 0) == 0 <==> shape[j].chunks == []
    {
      EmptyMeansNull(shape, j);
    }

    lemma LookAll(j: nat, need: nat)
      requires Consistent() && j < |shape| && majors.Keys >= {shape[j].addr}
      requires majors[shape[j].addr].size - majors[shape[j].addr].usage < need
      ensures !HasRoom(shape[j], need) && !RoomAt(shape[j], 0, need)
    {
      MajorKnown(majors, minors, shape, j);
      NoRoomLeft(shape, j, need);
    }

    method Bet(maj: nat, ghost j: nat)
      requires Consistent() && j < |shape| && maj == shape[j].addr
      modifies `bestBet
      ensures Consistent() && bestBet == maj
    {
      hide ShapeOk, Represents, Placed, TakenBy, Chunks, ShiftStored, HeapPages.PageHook.Valid, TotalPayload, TotalSize;
      bestBet := maj;
      assert Listed(shape, bestBet);
    }

    /** Looks at the major at place m: how many bytes it has free, and whether it is the best bet now. */
    method Consider(maj: nat, bestSize: int, ghost m: nat, ghost shape0: Shape, ghost made: bool, ghost bet: bool, ghost startedBet: bool,
                    ghost start: nat, ghost need: nat, ghost was: nat, ghost best: int)
        returns (diff: int, bestSize': int)
      requires Consistent() && m < |shape| && maj == shape[m].addr
      requires Betting(shape0, shape, made, bet, startedBet, start, m, need, was, best, bestBet, bestSize)
      modifies `bestBet
      ensures Consistent() && maj in majors && diff == majors[maj].size - majors[maj].usage == Spare(shape[m])
      ensures Betting(shape0, shape, made, bet, startedBet, start, m + 1, need, was, best, bestBet, bestSize')
      ensures BestOf(shape, Route(start, bet && !startedBet, m + 1, |shape0|), was, best, bestBet, bestSize')
      ensures bet && !startedBet ==> forall j: nat :: start <= j < |shape0| ==> !HasRoom(shape0[j], need)
      ensures made ==> |shape0| == 0 || Spare(shape0[|shape0| - 1]) >= need
    {
      hide Consistent, Usage, Betting, BestOf, Route, Spare, HasRoom;
      Look(m);
      ghost var now := bestBet;
      diff, bestSize' := majors[maj].size - majors[maj].usage, bestSize;
      if bestSize' < diff {
        Bet(maj, m);
        bestSize' := diff;
      }
      BettingLook(shape0, shape, made, bet, startedBet, start, m, need, was, best, now, bestSize, bestBet, bestSize');
      BettingIs(shape0, shape, made, bet, startedBet, start, m + 1, need, was, best, bestBet, bestSize');
    }

    /** A new major after the last one, with the search moved on to it. */
    method GrowAfter(maj: nat, size: nat, ghost m: nat, ghost start: nat) returns (r: HeapPages.Block)
      requires Consistent() && m + 1 == |shape| && maj == shape[m].addr && NoRoomAnywhere(shape, size + HEADER)
      modifies `majors, `memRoot, `allocatedBytes, `shape, hook.mmu`memory, hook.mmu`tree, hook.mmu.frames.bytes, hook.physicalPages
      ensures r.Panic? ==> hook.mmu.OutOfFrames()
      ensures r.Null? ==> Consistent() && shape == old(shape)
      ensures r.Null? ==> NoRun(HeapPages.FreeCells(hook.physicalPages[..]), Anywhere(), 0, HeapPages.HEAP_PAGES, PagesNeeded(size))
      ensures r.At? ==> Consistent() && |shape| == m + 2 && Searching(old(shape), shape, true, false, start, m + 1, size + HEADER)
      ensures r.At? ==> maj in majors && majors[maj].next == shape[m + 1].addr > 0 && shape[..m + 1] == old(shape)
    {
      hide Consistent, HasRoom, RoomAt, NoRun, Usage, Searching, NoRoomAnywhere, PagesNeeded, HeapPages.FreeCells;
      r := Grow(maj, size);
      if r.At? {
        SearchGrown(old(shape), shape, start, size + HEADER);
        Look(m);
      }
    }

    /** Cases 2 to 4 at the place where the search stands: the search is done, or this major has no room. */
    method TryHere(maj: nat, size: nat, req: nat, ghost m: nat, ghost shape0: Shape, ghost made: bool, ghost bet: bool, ghost start: nat)
        returns (p: Option<nat>, ghost c: Chunk)
      requires Consistent() && NonEmpty(shape0) && size == req + 32
      requires m < |shape| && maj == shape[m].addr && Searching(shape0, shape, made, bet, start, m, size + HEADER)
      modifies `majors, `minors, `inUse, `bytes, `shape
      ensures p.None? ==> unchanged(this) && !HasRoom(shape[m], size + HEADER) && !RoomAt(shape[m], 0, size + HEADER)
      ensures p.Some? ==> Valid() && Allocated(shape0, old(bytes), shape, bytes, c) && p.value == Pointer(c) && c.req == req
      ensures p.Some? && |shape| != |shape0| ==> |shape| == |shape0| + 1 && NoRoomAnywhere(shape0, size + HEADER)
      ensures p.Some? ==> PlacedFirst(shape0, shape, start, c, size + HEADER)
      ensures p.Some? ==> |shape| == |old(shape)| && shape == old(shape)[m := shape[m]] && Leftmost(old(shape)[m], shape[m], c, size + HEADER)
    {
      hide Consistent, Chunks, Data, Allocated, HasRoom, RoomAt, Usage, Pointer, Searching, NonEmpty, NoRoomAnywhere, Leftmost, PlacedFirst;
      ghost var shape1 := shape;
      SearchHere(shape0, shape, made, bet, start, m, size + HEADER);
      p, c := Place(maj, size, req, m);
      if p.Some? {
        SearchDone(shape0, shape1, made, bet, start, m, size + HEADER, old(bytes), shape, bytes, c);
        SearchPlaced(shape0, shape1, made, bet, start, m, size + HEADER, shape, c);
      } else {
        FrontRoom(shape[m], size + HEADER);
      }
    }

    /** The loop over the majors, from place `start` of the list on. */
    method Search(from: nat, bet: bool, best: nat, size: nat, req: nat, ghost start: nat, ghost shape0: Shape, ghost made0: bool)
        returns (r: HeapPages.Block, ghost c: Chunk)
      requires Consistent() && NonEmpty(shape0) && size == req + 32
      requires start < |shape| && from == shape[start].addr && Searching(shape0, shape, made0, bet, start, start, size + HEADER)
      requires (made0 ==> shape0 == []) && (!bet ==> start == 0)
      modifies this, hook.mmu`memory, hook.mmu`tree, hook.mmu.frames.bytes, hook.physicalPages
      ensures r.Panic? ==> hook.mmu.OutOfFrames()
      ensures r.Null? ==> Consistent() && shape == shape0 && bytes == old(bytes) && NoRoomAnywhere(shape0, size + HEADER)
      ensures r.Null? ==> NoRun(HeapPages.FreeCells(hook.physicalPages[..]), Anywhere(), 0, HeapPages.HEAP_PAGES, PagesNeeded(size))
      ensures r.At? ==> Valid() && Allocated(shape0, old(bytes), shape, bytes, c) && r.address == Pointer(c) && c.req == req
      ensures r.At? && |shape| != |shape0| ==> |shape| == |shape0| + 1 && NoRoomAnywhere(shape0, size + HEADER)
      ensures r.At? ==> PlacedFirst(shape0, shape, start, c, size + HEADER)
      ensures r.At? ==> BetAfter(shape0, shape, bet, start, size + HEADER, old(bestBet), best, bestBet)
    {
      hide Consistent, Chunks, Data, Allocated, HasRoom, RoomAt, NoRun, Usage, Pointer, Searching, NonEmpty, NoRoomAnywhere, PagesNeeded, HeapPages.FreeCells,
        PlacedFirst, Betting, BetAfter, Spare, Leftmost, BestOf, Route;
      c := Chunk(0, 0, 0);
      var maj, startedBet, bestSize, need := from, bet, best, size + HEADER;
      ghost var m, made, bet0 := start, made0, bestBet;
      Look(m);
      BettingStart(shape0, shape, made, bet, start, need, bestBet, best);
      while maj != 0
        invariant maj != 0 && Consistent() && bytes == old(bytes)
        invariant 0 <= m < |shape| && maj == shape[m].addr && Searching(shape0, shape, made, startedBet, start, m, need)
        invariant (startedBet ==> bet) && Betting(shape0, shape, made, bet, startedBet, start, m, need, bet0, best, bestBet, bestSize)
        decreases startedBet, !made, |shape| - m
      {
        ghost var looked := m + 1;
        Look(m);
        var diff;
        diff, bestSize := Consider(maj, bestSize, m, shape0, made, bet, startedBet, start, need, bet0, best);
        if diff < need {
          LookAll(m, need);
          SearchNext(shape0, shape, made, startedBet, start, m, need);
          if majors[maj].next != 0 {
            maj, m := majors[maj].next, m + 1;
            continue;
          }
          if startedBet {
            BettingWrap(shape0, shape, start, m, need, bet0, best, bestBet, bestSize);
            maj, m, startedBet := memRoot, 0, false;
            continue;
          }
          r := GrowAfter(maj, size, m, start);
          if !r.At? { break; }
          BettingGrown(shape0, shape, bet, start, m, need, bet0, best, bestBet, bestSize);
          made, m := true, m + 1;
          maj := majors[maj].next;
        }
        var p;
        ghost var shape1 := shape;
        p, c := TryHere(maj, size, req, m, shape0, made, startedBet, start);
        if p.Some? {
          BettingDone(shape0, shape1, made, bet, startedBet, start, m, looked, need, bet0, best, bestBet, bestSize, shape, c);
          return HeapPages.At(p.value), c;
        }
        SearchNext(shape0, shape, made, startedBet, start, m, need);
        Look(m);
        if majors[maj].next == 0 {
          if startedBet {
            BettingWrap(shape0, shape, start, m, need, bet0, best, bestBet, bestSize);
            maj, m, startedBet := memRoot, 0, false;
            continue;
          }
          r := GrowAfter(maj, size, m, start);
          if !r.At? { break; }
          BettingGrown(shape0, shape, bet, start, m, need, bet0, best, bestBet, bestSize);
          made := true;
        }
        maj, m := majors[maj].next, m + 1;
      }
    }

    /** kmalloc. The search starts at the best bet when that has room enough in all, restarts once
        at the root, and asks the page hook only when no gap anywhere is large enough. */
    method Kmalloc(req: nat) returns (r: HeapPages.Block, ghost c: Chunk)
      requires Valid() && req + 112 + 4095 < 0x1_0000_0000
      modifies this, hook.mmu`memory, hook.mmu`tree, hook.mmu.frames.bytes, hook.physicalPages
      ensures r.Panic? ==> hook.mmu.OutOfFrames()
      ensures r.Null? ==> Valid() && shape == old(shape) && bytes == old(bytes)
      ensures r.Null? ==> NoRun(HeapPages.FreeCells(hook.physicalPages[..]), Anywhere(), 0, HeapPages.HEAP_PAGES, PagesNeeded(req + 32))
      ensures r.At? ==> Valid() && Allocated(old(shape), old(bytes), shape, bytes, c) && r.address == Pointer(c) && c.req == req
      ensures r.Null? || (r.At? && |shape| != |old(shape)|) ==> NoRoomAnywhere(old(shape), req + 32 + HEADER)
      ensures r.At? && |shape| != |old(shape)| ==> |shape| == |old(shape)| + 1
      ensures r.At? ==> Placement(old(shape), old(bestBet), shape, bestBet, c, req + 72)
      ensures r.At? && |shape| != |old(shape)| ==> r.address % 4096 == 96
    {
      hide Consistent, Chunks, Allocated, HasRoom, RoomAt, NoRun, Usage, Pointer, Searching, NonEmpty, NoRoomAnywhere, PagesNeeded, HeapPages.FreeCells, PlacedFirst, BetPlace, BetAfter, BetTaken, Spare;
      c := Chunk(0, 0, 0);
      var startedBet, bestSize := false, 0;
      var size := req + ALIGNMENT + ALIGN_INFO;
      ghost var shape0, made, m := shape, false, 0;
      ghost var b := Begin();
      EmptyHasNoRoom(shape, size + HEADER);
      if memRoot == 0 {
        r := Grow(0, size);
        if !r.At? { return; }
        SearchGrown(shape0, shape, 0, size + HEADER);
        made := true;
      }
      Look(0);
      var maj := memRoot;
      if bestBet != 0 {
        Look(b);
        bestSize := majors[bestBet].size - majors[bestBet].usage;
        if bestSize > size + HEADER {
          maj, m, startedBet := bestBet, b, true;
        }
      }
      if !made { SearchStart(shape, startedBet, m, size + HEADER); }
      BetPlaceIs(shape0, bestBet, b, bestSize, size + HEADER, m);
      ghost var start, bet0 := m, bestBet;
      r, c := Search(maj, startedBet, bestSize, size, req, start, shape0, made);
      if r.At? && |shape| != |shape0| {
        ghost var _ := Begin();
        NewRegionPointer(shape0, shape, start, c, req + 72);
      }
    }

    /** The root is NULL exactly in an empty heap, and then there is no best bet. */
    lemma Begin() returns (b: nat)
      requires Consistent()
      ensures memRoot == AddrAt(shape, 0) && (memRoot == 0 <==> shape == [])
      ensures bestBet != 0 ==> b < |shape| && shape[b].addr == bestBet
      ensures ShapeOk(shape) && Placed(shape)
    {
      RegionAddrsPositive(shape);
      b := 0;
      if bestBet != 0 {
        b :| 0 <= b < |shape| && shape[b].addr == bestBet;
      }
    }

    /** Unlinks the minor at address a from its neighbours and its major. */
    method UnlinkStructs(a: nat)
      requires a in minors && minors[a].block in majors
      requires minors[a].prev != a && minors[a].next != a
      requires (minors[a].prev != 0 ==> minors[a].prev in minors) && (minors[a].next != 0 ==> minors[a].next in minors)
      requires majors[minors[a].block].usage >= minors[a].size + HEADER
      modifies `majors, `minors
      ensures minors == Unspliced(old(minors), a)
      ensures var m, maj := old(minors)[a], old(majors)[old(minors)[a].block];
        majors == old(majors)[m.block := maj.(usage := maj.usage - (m.size + HEADER), first := if m.prev == 0 then m.next else maj.first)]
    {
      var maj := minors[a].block;
      majors := majors[maj := majors[maj].(usage := majors[maj].usage - (minors[a].size + HEADER))];
      minors := minors[a := minors[a].(magic := DEAD)];
      if minors[a].next != 0 {
        minors := minors[minors[a].next := minors[minors[a].next].(prev := minors[a].prev)];
      }
      if minors[a].prev != 0 {
        minors := minors[minors[a].prev := minors[minors[a].prev].(next := minors[a].next)];
      }
      if minors[a].prev == 0 {
        majors := majors[maj := majors[maj].(first := minors[a].next)];
      }
    }

    method UnlinkMajor(maj: nat)
      requires maj in majors
      modifies `majors
      ensures majors == MajorsWithout(old(majors), maj)
    {
      var m := majors[maj];
      if m.prev != 0 && m.prev in majors { majors := majors[m.prev := majors[m.prev].(next := m.next)]; }
      if m.next != 0 && m.next in majors { majors := majors[m.next := majors[m.next].(prev := m.prev)]; }
    }

    /** Takes an empty major out of the list and gives its pages back. */
    method DropMajor(maj: nat, ghost j: nat)
      requires Consistent() && j < |shape| && maj == shape[j].addr && shape[j].chunks == []
      modifies `majors, `memRoot, `bestBet, `allocatedBytes, `shape, hook.mmu`memory, hook.mmu`tree, hook.mmu.frames.bytes, hook.physicalPages
      ensures Consistent() && shape == Without(old(shape), j) && Chunks(shape) == Chunks(old(shape))
      ensures bestBet == if old(bestBet) == maj then 0 else old(bestBet)
    {
      hide ShapeOk, Represents, Placed, TakenBy, TotalPayload, TotalSize, Usage, Chunks, ShiftStored,
        HeapPages.Cleared, HeapPages.FramesOf, MajorsWithout, HeapPages.PageHook.Valid, Listed, AddrAt, Without, HeapPages.PageHook.DataFrames;
      ghost var pages := hook.physicalPages[..];
      MajorKnown(majors, minors, shape, j);
      HookRange(hook, shape, j);
      var m := majors[maj];
      if memRoot == maj { memRoot := m.next; }
      if bestBet == maj { bestBet := 0; }
      UnlinkMajor(maj);
      allocatedBytes := allocatedBytes - m.size;
      hook.Free(maj, m.pages);
      DropFacts(old(majors), minors, shape, pages, hook.physicalPages[..], j);
      shape := Without(shape, j);
    }

    /** kfree of a pointer that kmalloc returned and nobody freed since, or of NULL. */
    method Kfree(ptr: nat, ghost c: Chunk)
      requires Valid() && (ptr != 0 ==> c in Chunks(shape) && ptr == Pointer(c))
      modifies this, hook.mmu`memory, hook.mmu`tree, hook.mmu.frames.bytes, hook.physicalPages
      ensures Valid() && bytes == old(bytes)
      ensures ptr == 0 ==> shape == old(shape)
      ensures ptr != 0 ==> Chunks(shape) == Chunks(old(shape)) - {c}
      ensures ptr != 0 ==> Freed(old(shape), old(bestBet), shape, bestBet, c)
    {
      hide ShapeOk, Represents, Placed, TakenBy, TotalPayload, TotalSize, Usage, HeapPages.PageHook.Valid, Removed, Listed, MinorsOf, AddrAt, Consistent, Freed, Roomier, Without;
      if ptr == 0 { return; }
      ghost var j, k :| 0 <= j < |shape| && 0 <= k < |shape[j].chunks| && shape[j].chunks[k] == c;
      hide Chunks;
      LookBack(c);
      var min := Unalign(ptr, bytes[ptr - ALIGN_INFO - HEAP]) - HEADER;
      var maj := DropMinor(min, j, k);
      ghost var shape1, bet := shape, bestBet;
      Tidy(maj, j);
      RemovedFields(old(shape)[j], k);
      FreedIs(old(shape), bet, shape1, shape, bestBet, c, j, k);
    }

    /** Takes a minor out of its major and the accounts; the major may be left empty. */
    method DropMinor(min: nat, ghost j: nat, ghost k: nat) returns (maj: nat)
      requires Consistent() && j < |shape| && k < |shape[j].chunks| && min == shape[j].chunks[k].addr
      modifies `majors, `minors, `inUse, `shape
      ensures Consistent() && shape == old(shape[j := Removed(shape[j], k)]) && maj == shape[j].addr
      ensures Chunks(shape) == Chunks(old(shape)) - {old(shape)[j].chunks[k]}
    {
      hide ShapeOk, Represents, Placed, TakenBy, TotalPayload, TotalSize, Usage, ShiftStored, HeapPages.PageHook.Valid,
        Unspliced, Removed, Listed, MinorsOf, AddrAt, Chunks;
      RemoveFacts(majors, minors, shape, hook.physicalPages[..], j, k);
      RemovedFields(shape[j], k);
      maj := minors[min].block;
      inUse := inUse - minors[min].size;
      UnlinkStructs(min);
      shape := shape[j := Removed(shape[j], k)];
    }

    /** Gives an empty major back, or makes a roomier one the best bet. */
    method Tidy(maj: nat, ghost j: nat)
      requires Consistent() && j < |shape| && maj == shape[j].addr
      requires forall i :: 0 <= i < |shape| && i != j ==> shape[i].chunks != []
      modifies this, hook.mmu`memory, hook.mmu`tree, hook.mmu.frames.bytes, hook.physicalPages
      ensures Valid() && bytes == old(bytes) && Chunks(shape) == Chunks(old(shape))
      ensures old(shape)[j].chunks == [] ==> shape == Without(old(shape), j) && bestBet == if old(bestBet) == maj then 0 else old(bestBet)
      ensures old(shape)[j].chunks != [] ==> shape == old(shape) && bestBet == if Roomier(shape, j, old(bestBet)) then maj else old(bestBet)
    {
      hide Consistent, Chunks, Spare, Roomier;
      Look(j);
      LookEmpty(j);
      if majors[maj].first == 0 {
        DropMajor(maj, j);
      } else if bestBet != 0 {
        ghost var b := Begin();
        Look(b);
        var bestSize := majors[bestBet].size - majors[bestBet].usage;
        var majSize := majors[maj].size - majors[maj].usage;
        RoomierIs(shape, j, bestBet, b);
        if majSize > bestSize { Bet(maj, j); }
      } else {
        assert !Roomier(shape, j, bestBet) by { NoBet(shape, j); }
      }
    }

    /** A store by the owner of a chunk into the bytes it asked for. */
    method Store(ptr: nat, offset: nat, b: byte, ghost c: Chunk)
      requires Valid() && c in Chunks(shape) && ptr == Pointer(c) && offset < c.req
      modifies `bytes
      ensures Valid() && OthersSame(shape, c, old(bytes), bytes)
      ensures OneByte(old(bytes), bytes, c, offset, b)
    {
      hide ShapeOk, Represents, Placed, TakenBy, TotalPayload, TotalSize, Usage, ShiftStored, HeapPages.PageHook.Valid, Listed, Chunks;
      DataInside(shape, bytes, c);
      ghost var before := bytes;
      bytes := bytes[ptr + offset - HEAP := b];
      UserWrite(shape, before, bytes, c);
    }

    /** liballoc_memcpy: four bytes at a time, then the rest. A move of the old bytes unless it copies
        upwards into its own source. */
    method Memcpy(dst: nat, src: nat, len: nat)
      requires HEAP <= dst && HEAP <= src && dst - HEAP + len <= |bytes| && src - HEAP + len <= |bytes|
      modifies `bytes
      ensures |bytes| == |old(bytes)|
      ensures Copied(old(bytes), bytes, dst - HEAP, src - HEAP, len, 4, len)
    {
      hide IsMove, Copied;
      var n, d, s := len, dst - HEAP, src - HEAP;
      CopiedNothing(bytes, d, s, len, 4);
      while n >= 4
        invariant 0 <= n <= len && d == dst - HEAP + (len - n) && s == src - HEAP + (len - n)
        invariant |bytes| == |old(bytes)|
        invariant (len - n) % 4 == 0
        invariant Copied(old(bytes), bytes, dst - HEAP, src - HEAP, len, 4, len - n)
      {
        ghost var before := bytes;
        bytes := bytes[d := bytes[s]][d + 1 := bytes[s + 1]][d + 2 := bytes[s + 2]][d + 3 := bytes[s + 3]];
        FourMoved(before, bytes, d, s);
        CopiedStep(old(bytes), before, bytes, dst - HEAP, src - HEAP, len, 4, len - n, 4);
        d, s, n := d + 4, s + 4, n - 4;
      }
      while n > 0
        invariant 0 <= n <= len && d == dst - HEAP + (len - n) && s == src - HEAP + (len - n)
        invariant |bytes| == |old(bytes)|
        invariant 4 * (len / 4) <= len - n
        invariant Copied(old(bytes), bytes, dst - HEAP, src - HEAP, len, 4, len - n)
      {
        ghost var before := bytes;
        bytes := bytes[d := bytes[s]];
        OneMoved(before, bytes, d, s);
        CopiedStep(old(bytes), before, bytes, dst - HEAP, src - HEAP, len, 4, len - n, 1);
        d, s, n := d + 1, s + 1, n - 1;
      }
    }

    /** Changes the recorded request of a chunk. */
    method Shrink(min: nat, size: nat, ghost c: Chunk)
      requires Valid() && c in Chunks(shape) && min == c.addr && size <= c.req
      modifies `minors, `shape
      ensures Valid() && Chunks(shape) == Chunks(old(shape)) - {c} + {c.(req := size)}
    {
      hide ShapeOk, Represents, Placed, TakenBy, TotalPayload, TotalSize, Usage, ShiftStored, HeapPages.PageHook.Valid, Listed, AddrAt;
      ghost var j, k :| 0 <= j < |shape| && 0 <= k < |shape[j].chunks| && shape[j].chunks[k] == c;
      hide Chunks;
      ghost var r := shape[j].(chunks := shape[j].chunks[k := c.(req := size)]);
      ShrinkFacts(majors, minors, shape, hook.physicalPages[..], j, k, size);
      ShrinkShifts(shape, bytes, c, size);
      minors := minors[min := minors[min].(reqSize := size)];
      shape := shape[j := r];
    }

    /** A request no larger than the recorded one: only the record changes. */
    method ResizeInPlace(min: nat, size: nat, ghost c: Chunk)
      requires Valid() && c in Chunks(shape) && min == c.addr && 0 < size <= c.req
      modifies `minors, `shape
      ensures var d := c.(req := size);
        && Valid() && Pointer(d) == Pointer(c) && d in Chunks(shape) && Chunks(shape) == Chunks(old(shape)) - {c} + {d}
        && d !in Chunks(old(shape)) - {c} && OthersSame(old(shape), c, old(bytes), bytes) && SamePrefix(old(bytes), c, bytes, d)
    {
      hide Consistent, Chunks, NonEmpty, Data, SamePrefix, OthersSame;
      AllShifts();
      ShrunkData(shape, bytes, c, size);
      ShrunkIsNew(c, size);
      Shrink(min, size, c);
    }

    /** krealloc. A request no larger than the recorded one is met in place; otherwise the bytes
        move to a new chunk. A NULL from kmalloc is dereferenced by the copy, which is a fault. */
    method Krealloc(p: nat, size: nat, ghost c: Chunk) returns (r: HeapPages.Block, ghost d: Chunk)
      requires Valid() && size + 112 + 4095 < 0x1_0000_0000
      requires p != 0 ==> c in Chunks(shape) && p == Pointer(c)
      modifies this, hook.mmu`memory, hook.mmu`tree, hook.mmu.frames.bytes, hook.physicalPages
      ensures r.Panic? ==> hook.mmu.OutOfFrames() || NoRun(HeapPages.FreeCells(hook.physicalPages[..]), Anywhere(), 0, HeapPages.HEAP_PAGES, PagesNeeded(size + 32))
      ensures size == 0 ==> r.Null? && Valid() && Chunks(shape) == Chunks(old(shape)) - (if p == 0 then {} else {c})
      ensures size == 0 ==> bytes == old(bytes)
      ensures r.At? ==> Valid() && r.address == Pointer(d) && d.req == size && d in Chunks(shape)
      ensures r.At? && p == 0 ==> Allocated(old(shape), old(bytes), shape, bytes, d)
      ensures r.At? && p != 0 ==> Chunks(shape) == Chunks(old(shape)) - {c} + {d} && OthersSame(old(shape), c, old(bytes), bytes)
      ensures r.At? && p != 0 ==> d !in Chunks(old(shape)) - {c}
      ensures r.At? && p != 0 ==> SamePrefix(old(bytes), c, bytes, d)
      ensures size != 0 && r.Null? ==> p == 0 && Valid() && shape == old(shape) && bytes == old(bytes)
      ensures p != 0 && 0 < size <= c.req ==> r == HeapPages.At(p) && d == c.(req := size) && bytes == old(bytes)
      ensures p != 0 && 0 < size <= c.req ==> Chunks(shape) == Chunks(old(shape)) - {c} + {d} && majors == old(majors) && memRoot == old(memRoot) && bestBet == old(bestBet)
      ensures p != 0 && 0 < size <= c.req ==> inUse == old(inUse) && allocatedBytes == old(allocatedBytes)
      ensures p != 0 && 0 < size <= c.req ==>
        hook.physicalPages[..] == old(hook.physicalPages[..]) && hook.mmu.memory == old(hook.mmu.memory) && hook.mmu.frames.bytes[..] == old(hook.mmu.frames.bytes[..])
      ensures r.At? && p != 0 && size > c.req ==> d !in Chunks(old(shape))
    {
      hide Consistent, Chunks, Pointer, NonEmpty, NoRun, Data, NoRoomAnywhere, SamePrefix, OthersSame, Allocated, Placement, PagesNeeded, HeapPages.FreeCells, HeapPages.PageHook.Valid;
      d := c;
      if size == 0 {
        Kfree(p, c);
        return HeapPages.Null, d;
      }
      if p == 0 {
        r, d := Kmalloc(size);
        if r.At? { AllocatedIn(old(shape), old(bytes), shape, bytes, d); }
        return;
      }
      LookBack(c);
      var min := Unalign(p, bytes[p - ALIGN_INFO - HEAP]) - HEADER;
      var realSize := minors[min].reqSize;
      if realSize >= size {
        ResizeInPlace(min, size, c);
        d := c.(req := size);
        return HeapPages.At(p), d;
      }
      r, d := Kmalloc(size);
      if !r.At? { return HeapPages.Panic, d; }
      AllocatedBoth(old(shape), old(bytes), shape, bytes, c, d);
      ghost var shape1, bytes1 := shape, bytes;
      CopyRoom(c, d);
      CopyData(r.address, p, realSize, c, d);
      MovedData(old(shape), old(bytes), shape1, bytes1, bytes, c, d);
      Kfree(p, c);
    }

    /** When every chunk was freed, the lists are empty, the counters are zero and the page hook has
        every page back. */
    lemma NothingLeft()
      requires Valid() && Chunks(shape) == {}
      ensures memRoot == 0 && bestBet == 0 && inUse == 0 && allocatedBytes == 0
      ensures forall i :: 0 <= i < hook.physicalPages.Length ==> hook.physicalPages[i] == 0
    {
      hide HeapPages.PageHook.Valid;
      FirstChunk(shape);
    }

    lemma ShrunkIsNew(c: Chunk, size: nat)
      requires Consistent() && c in Chunks(shape)
      ensures c.(req := size) !in Chunks(shape) - {c}
    {
      var d := c.(req := size);
      if d in Chunks(shape) && d != c { LiveChunksApart(shape, c, d); }
    }

    lemma AllShifts()
      requires Consistent()
      ensures forall d :: d in Chunks(shape) ==> ShiftStored(bytes, d)
    {
    }

    lemma LookBack(c: Chunk)
      requires Consistent() && c in Chunks(shape)
      ensures HEAP + ALIGN_INFO <= Pointer(c) && Pointer(c) - HEAP < |bytes| && c.addr in minors
      ensures Unalign(Pointer(c), bytes[Pointer(c) - ALIGN_INFO - HEAP]) == c.addr + HEADER
      ensures minors[c.addr].reqSize == c.req
    {
      ShiftLeadsBack(shape, bytes, c);
      var j, k :| 0 <= j < |shape| && 0 <= k < |shape[j].chunks| && shape[j].chunks[k] == c;
      MajorKnown(majors, minors, shape, j);
      MinorKnown(minors, shape[j], k);
    }

    lemma CopyRoom(c: Chunk, d: Chunk)
      requires Consistent() && c in Chunks(shape) && d in Chunks(shape) && c != d && c.req <= d.req
      ensures HEAP <= Pointer(c) && Pointer(c) - HEAP + c.req <= |bytes|
      ensures HEAP <= Pointer(d) && Pointer(d) - HEAP + d.req <= |bytes|
      ensures Pointer(d) + c.req <= Pointer(c) || Pointer(c) + c.req <= Pointer(d)
    {
      ChunkPlace(shape, c);
      ChunkPlace(shape, d);
      PointerInChunk(c);
      PointerInChunk(d);
      LiveChunksApart(shape, c, d);
    }

    /** Copies all of c's bytes to the front of d's. */
    method CopyData(dst: nat, src: nat, len: nat, ghost c: Chunk, ghost d: Chunk)
      requires Valid() && c in Chunks(shape) && d in Chunks(shape) && c != d
      requires dst == Pointer(d) && src == Pointer(c) && len == c.req <= d.req
      modifies `bytes
      ensures Valid() && OthersSame(shape, d, old(bytes), bytes)
      ensures dst >= HEAP && src >= HEAP && IsMove(old(bytes), bytes, dst - HEAP, src - HEAP, len)
    {
      hide ShapeOk, Represents, Placed, TakenBy, TotalPayload, TotalSize, Usage, ShiftStored, HeapPages.PageHook.Valid, Listed, Chunks, Pointer;
      CopyRoom(c, d);
      ghost var before := bytes;
      Memcpy(dst, src, len);
      CopyIsUserWrite(before, bytes, src - HEAP, len, d);
      UserWrite(shape, before, bytes, d);
    }
  }

  lemma FourMoved(now: seq<byte>, after: seq<byte>, d: nat, s: nat)
    requires d + 4 <= |now| && s + 4 <= |now|
    requires after == now[d := now[s]][d + 1 := now[s + 1]][d + 2 := now[s + 2]][d + 3 := now[s + 3]]
    ensures IsMove(now, after, d, s, 4)
  {
  }

  lemma CopyIsUserWrite(before: seq<byte>, after: seq<byte>, s: nat, n: nat, c: Chunk)
    requires Pointer(c) >= HEAP && IsMove(before, after, Pointer(c) - HEAP, s, n) && n <= c.req
    ensures |after| == |before|
    ensures forall i :: 0 <= i < |before| && !(Pointer(c) <= HEAP + i < Pointer(c) + c.req) ==> after[i] == before[i]
  {
    forall i | 0 <= i < |before| && !(Pointer(c) <= HEAP + i < Pointer(c) + c.req) ensures after[i] == before[i] {
      assert after[i] == Moved(before, Pointer(c) - HEAP, s, n, i);
    }
  }

  /** One byte of c's owner changed. */
  ghost predicate OneByte(bytes: seq<byte>, bytes': seq<byte>, c: Chunk, offset: nat, b: byte) {
    && HEAP <= Pointer(c) && Pointer(c) - HEAP + c.req <= |bytes| == |bytes'| && offset < c.req
    && Data(bytes', c) == Data(bytes, c)[offset := b]
  }

  /** The chunks other than c hold the same bytes in both memories. */
  ghost predicate OthersSame(shape: Shape, c: Chunk, bytes: seq<byte>, bytes': seq<byte>) {
    forall d :: d in Chunks(shape) && d != c ==>
      && HEAP <= Pointer(d) && Pointer(d) - HEAP + d.req <= |bytes| && |bytes'| == |bytes|
      && Data(bytes', d) == Data(bytes, d)
  }

  /** As far as both go, d holds in bytes' what c held in bytes. */
  ghost predicate SamePrefix(bytes: seq<byte>, c: Chunk, bytes': seq<byte>, d: Chunk) {
    var n := if c.req <= d.req then c.req else d.req;
    && HEAP <= Pointer(c) && Pointer(c) - HEAP + c.req <= |bytes|
    && HEAP <= Pointer(d) && Pointer(d) - HEAP + d.req <= |bytes'|
    && Data(bytes', d)[..n] == Data(bytes, c)[..n]
  }

  lemma DataInside(shape: Shape, bytes: seq<byte>, c: Chunk)
    requires ShapeOk(shape) && Placed(shape) && c in Chunks(shape) && |bytes| == HEAP_BYTES
    ensures HEAP + ALIGN_INFO <= Pointer(c) && Pointer(c) - HEAP + c.req <= |bytes|
  {
    ChunkPlace(shape, c);
    PointerInChunk(c);
  }

  /** Writes inside the bytes of one owner keep every shift byte and every other owner's bytes. */
  lemma UserWrite(shape: Shape, bytes: seq<byte>, bytes': seq<byte>, c: Chunk)
    requires ShapeOk(shape) && Placed(shape) && c in Chunks(shape) && |bytes| == |bytes'| == HEAP_BYTES
    requires forall i :: 0 <= i < |bytes| && !(Pointer(c) <= HEAP + i < Pointer(c) + c.req) ==> bytes'[i] == bytes[i]
    requires forall d :: d in Chunks(shape) ==> ShiftStored(bytes, d)
    ensures forall d :: d in Chunks(shape) ==> ShiftStored(bytes', d)
    ensures OthersSame(shape, c, bytes, bytes')
  {
    hide ShapeOk, Placed, Chunks, Pointer;
    ChunkPlace(shape, c);
    PointerInChunk(c);
    forall d | d in Chunks(shape)
      ensures ShiftStored(bytes', d) && (d != c ==> Data(bytes', d) == Data(bytes, d))
    {
      ChunkPlace(shape, d);
      PointerInChunk(d);
      if d != c { LiveChunksApart(shape, c, d); }
    }
  }

  lemma ShrinkFacts(majors: map<nat, Major>, minors: map<nat, Minor>, shape: Shape, pages: seq<nat>, j: nat, k: nat, size: nat)
    requires ShapeOk(shape) && Represents(majors, minors, shape) && j < |shape| && k < |shape[j].chunks|
    requires Placed(shape) && TakenBy(pages, shape) && size <= shape[j].chunks[k].req
    ensures var c, r := shape[j].chunks[k], shape[j].(chunks := shape[j].chunks[k := shape[j].chunks[k].(req := size)]);
      && c.addr in minors
      && ShapeOk(shape[j := r]) && Placed(shape[j := r]) && TakenBy(pages, shape[j := r])
      && TotalPayload(shape[j := r]) == TotalPayload(shape) && TotalSize(shape[j := r]) == TotalSize(shape)
      && AddrAt(shape[j := r], 0) == AddrAt(shape, 0) && (forall x :: Listed(shape, x) ==> Listed(shape[j := r], x))
      && Chunks(shape[j := r]) == Chunks(shape) - {c} + {c.(req := size)}
      && Represents(majors, minors[c.addr := minors[c.addr].(reqSize := size)], shape[j := r])
  {
    hide Represents, Placed, TakenBy, TotalPayload, TotalSize, Chunks, Listed, AddrAt, Packed, ShapeOk;
    var c, r := shape[j].chunks[k], shape[j].(chunks := shape[j].chunks[k := shape[j].chunks[k].(req := size)]);
    RegionKnown(shape, j);
    MajorKnown(majors, minors, shape, j);
    MinorKnown(minors, shape[j], k);
    SamePacking(shape[j], k, size);
    UpdatedShapeOk(shape, j, r);
    SamePages(shape, pages, j, r);
    SameSums(shape[j].chunks, r.chunks);
    TotalsUpdate(shape, j, r);
    ShrinkStructs(majors, minors, shape, j, k, size);
    ShrinkChunks(shape, j, k, size);
  }

  lemma SamePacking(r: Region, k: nat, size: nat)
    requires RegionOk(r) && k < |r.chunks| && size <= r.chunks[k].req
    ensures RegionOk(r.(chunks := r.chunks[k := r.chunks[k].(req := size)]))
  {
    var r' := r.(chunks := r.chunks[k := r.chunks[k].(req := size)]);
    forall m | 0 <= m <= |r'.chunks| ensures Lo(r', m) <= Hi(r', m) {
      assert Lo(r, m) <= Hi(r, m);
    }
  }

  lemma {:induction false} SameSums(a: seq<Chunk>, b: seq<Chunk>)
    requires |a| == |b| && forall i :: 0 <= i < |a| ==> a[i].size == b[i].size
    ensures Bytes(a) == Bytes(b) && Payload(a) == Payload(b)
  {
    if a != [] { SameSums(a[..|a| - 1], b[..|b| - 1]); }
  }

  lemma ShrinkMinor(minors: map<nat, Minor>, shape: Shape, j: nat, k: nat, size: nat, i: nat)
    requires ShapeOk(shape) && j < |shape| && k < |shape[j].chunks| && shape[j].chunks[k].addr in minors
    requires i < |shape| && MinorsOf(minors, shape[i]) && MinorsOf(minors, shape[j])
    ensures var c, r := shape[j].chunks[k], shape[j].(chunks := shape[j].chunks[k := shape[j].chunks[k].(req := size)]);
      MinorsOf(minors[c.addr := minors[c.addr].(reqSize := size)], if i == j then r else shape[i])
  {
    hide ShapeOk;
    var c, r := shape[j].chunks[k], shape[j].(chunks := shape[j].chunks[k := shape[j].chunks[k].(req := size)]);
    var minors', s := minors[c.addr := minors[c.addr].(reqSize := size)], if i == j then r else shape[i];
    forall l | 0 <= l < |s.chunks| ensures s.chunks[l].addr in minors' && minors'[s.chunks[l].addr] == MinorOf(s, l) {
      MinorKnown(minors, shape[i], l);
      if i != j || l != k { ChunksApart(shape, i, l, j, k); }
    }
  }

  lemma ShrinkStructs(majors: map<nat, Major>, minors: map<nat, Minor>, shape: Shape, j: nat, k: nat, size: nat)
    requires ShapeOk(shape) && Represents(majors, minors, shape) && j < |shape| && k < |shape[j].chunks| && shape[j].chunks[k].addr in minors
    ensures var c, r := shape[j].chunks[k], shape[j].(chunks := shape[j].chunks[k := shape[j].chunks[k].(req := size)]);
      Represents(majors, minors[c.addr := minors[c.addr].(reqSize := size)], shape[j := r])
  {
    hide ShapeOk, MajorsOf, MinorsOf, MajorOf;
    var c, r := shape[j].chunks[k], shape[j].(chunks := shape[j].chunks[k := shape[j].chunks[k].(req := size)]);
    var minors', shape' := minors[c.addr := minors[c.addr].(reqSize := size)], shape[j := r];
    SameMajors(majors, shape, j, r);
    forall i | 0 <= i < |shape'| ensures MinorsOf(minors', shape'[i]) {
      ShrinkMinor(minors, shape, j, k, size, i);
    }
  }

  lemma SameMajors(majors: map<nat, Major>, shape: Shape, j: nat, r: Region)
    requires MajorsOf(majors, shape) && j < |shape| && r.addr == shape[j].addr && r.pages == shape[j].pages
    requires |r.chunks| == |shape[j].chunks|
    requires forall l :: 0 <= l < |r.chunks| ==> r.chunks[l].size == shape[j].chunks[l].size && r.chunks[l].addr == shape[j].chunks[l].addr
    ensures MajorsOf(majors, shape[j := r])
  {
    hide Bytes;
    SameSums(shape[j].chunks, r.chunks);
    var shape' := shape[j := r];
    assert AddrAt(shape', 0) == AddrAt(shape, 0);
    forall i | 0 <= i < |shape'| ensures shape'[i].addr in majors && majors[shape'[i].addr] == MajorOf(shape', i) {
      assert shape[i].addr in majors && majors[shape[i].addr] == MajorOf(shape, i);
    }
  }

  lemma ShrinkChunks(shape: Shape, j: nat, k: nat, size: nat)
    requires ShapeOk(shape) && j < |shape| && k < |shape[j].chunks|
    ensures var c, r := shape[j].chunks[k], shape[j].(chunks := shape[j].chunks[k := shape[j].chunks[k].(req := size)]);
      Chunks(shape[j := r]) == Chunks(shape) - {c} + {c.(req := size)}
  {
    hide ShapeOk;
    var c, r := shape[j].chunks[k], shape[j].(chunks := shape[j].chunks[k := shape[j].chunks[k].(req := size)]);
    var shape' := shape[j := r];
    forall x | x in Chunks(shape') ensures x in Chunks(shape) - {c} + {c.(req := size)} {
      var i, l :| 0 <= i < |shape'| && 0 <= l < |shape'[i].chunks| && shape'[i].chunks[l] == x;
      if i != j || l != k {
        assert x == shape[i].chunks[l];
        ChunksApart(shape, i, l, j, k);
      }
    }
    forall x | x in Chunks(shape) - {c} + {c.(req := size)} ensures x in Chunks(shape') {
      if x == c.(req := size) {
        assert shape'[j].chunks[k] == x;
      } else {
        var i, l :| 0 <= i < |shape| && 0 <= l < |shape[i].chunks| && shape[i].chunks[l] == x;
        assert shape'[i].chunks[l] == x;
      }
    }
  }

  lemma ShrinkShifts(shape: Shape, bytes: seq<byte>, c: Chunk, size: nat)
    requires c in Chunks(shape) && ShiftStored(bytes, c) && size <= c.req
    ensures ShiftStored(bytes, c.(req := size))
  {
  }

  lemma ShrunkData(shape: Shape, bytes: seq<byte>, c: Chunk, size: nat)
    requires c in Chunks(shape) && size <= c.req && forall d :: d in Chunks(shape) ==> ShiftStored(bytes, d)
    ensures OthersSame(shape, c, bytes, bytes) && SamePrefix(bytes, c, bytes, c.(req := size))
    ensures Pointer(c.(req := size)) == Pointer(c)
  {
    hide Chunks;
    ShrunkBytes(bytes, c, size);
    hide Align;
    assert Data(bytes, c.(req := size))[..size] == Data(bytes, c)[..size];
  }

  lemma ShrunkBytes(bytes: seq<byte>, c: Chunk, size: nat)
    requires size <= c.req && HEAP <= Pointer(c) && Pointer(c) - HEAP + c.req <= |bytes|
    ensures Pointer(c.(req := size)) == Pointer(c)
    ensures Data(bytes, c.(req := size)) == Data(bytes, c)[..size]
  {
    hide Align;
    var a := Pointer(c) - HEAP;
    assert bytes[a..a + size] == bytes[a..a + c.req][..size];
  }

  lemma FirstChunk(shape: Shape)
    requires NonEmpty(shape)
    ensures shape != [] ==> Chunks(shape) != {}
  {
    if shape != [] {
      assert shape[0].chunks[0] in Chunks(shape);
    }
  }

  lemma AllocatedIn(shape: Shape, bytes: seq<byte>, shape': Shape, bytes': seq<byte>, d: Chunk)
    requires Allocated(shape, bytes, shape', bytes', d)
    ensures d in Chunks(shape')
  {
  }

  lemma AllocatedBoth(shape: Shape, bytes: seq<byte>, shape': Shape, bytes': seq<byte>, c: Chunk, d: Chunk)
    requires Allocated(shape, bytes, shape', bytes', d) && c in Chunks(shape)
    ensures c in Chunks(shape') && d in Chunks(shape') && c != d && Chunks(shape') - {c} == Chunks(shape) - {c} + {d}
    ensures d !in Chunks(shape)
  {
    hide Chunks;
  }

  /** After a new chunk d, a copy of c's bytes into it and the death of c. */
  lemma MovedData(shape: Shape, bytes: seq<byte>, shape': Shape, bytes1: seq<byte>, bytes2: seq<byte>, c: Chunk, d: Chunk)
    requires Allocated(shape, bytes, shape', bytes1, d) && c in Chunks(shape) && c.req <= d.req
    requires HEAP <= Pointer(d) && Pointer(d) - HEAP + d.req <= |bytes1| && HEAP <= Pointer(c)
    requires OthersSame(shape', d, bytes1, bytes2) && IsMove(bytes1, bytes2, Pointer(d) - HEAP, Pointer(c) - HEAP, c.req)
    ensures OthersSame(shape, c, bytes, bytes2) && SamePrefix(bytes, c, bytes2, d)
  {
    hide Chunks, Pointer;
    AllocatedBoth(shape, bytes, shape', bytes1, c, d);
    forall x | x in Chunks(shape) && x != c
      ensures HEAP <= Pointer(x) && Pointer(x) - HEAP + x.req <= |bytes| && |bytes2| == |bytes| && Data(bytes2, x) == Data(bytes, x)
    {
      assert x in Chunks(shape') && x != d;
    }
    assert Data(bytes1, c) == Data(bytes, c);
    forall i | 0 <= i < c.req ensures Data(bytes2, d)[i] == Data(bytes1, c)[i] {
      assert bytes2[Pointer(d) - HEAP + i] == Moved(bytes1, Pointer(d) - HEAP, Pointer(c) - HEAP, c.req, Pointer(d) - HEAP + i);
    }
    assert Data(bytes2, d)[..c.req] == Data(bytes1, c);
  }

  lemma HookRange(hook: HeapPages.PageHook, shape: Shape, j: nat)
    requires Placed(shape) && TakenBy(hook.physicalPages[..], shape) && j < |shape|
    ensures shape[j].addr >= HEAP && (shape[j].addr - HEAP) / PAGE + shape[j].pages <= HeapPages.HEAP_PAGES
    ensures var base := (shape[j].addr - HEAP) / PAGE;
      forall k :: base <= k < base + shape[j].pages && k < hook.physicalPages.Length ==> hook.physicalPages[k] != 0
  {
    assert InWindow(shape[j]);
    var base := (shape[j].addr - HEAP) / PAGE;
    assert shape[j].addr == HEAP + base * PAGE;
    forall k | base <= k < base + shape[j].pages && k < hook.physicalPages.Length ensures hook.physicalPages[k] != 0 {
      assert InPages(shape[j], k);
      assert Covered(shape, k);
      assert hook.physicalPages[..][k] != 0;
    }
  }

  lemma DropPages(shape: Shape, pages: seq<nat>, pages': seq<nat>, j: nat)
    requires ShapeOk(shape) && Placed(shape) && TakenBy(pages, shape) && j < |shape|
    requires HeapPages.Cleared(pages, pages', (if shape[j].addr >= HEAP then shape[j].addr - HEAP else 0) / PAGE, shape[j].pages)
    ensures TakenBy(pages', Without(shape, j))
  {
    hide Covered, Without, ShapeOk;
    var shape' := Without(shape, j);
    forall i | 0 <= i < |pages'| ensures pages'[i] != 0 <==> Covered(shape', i) {
      assert InWindow(shape[j]);
      RegionPages(shape[j].addr, shape[j].pages, i);
      assert InPages(shape[j], i) <==> InPages(Region(shape[j].addr, shape[j].pages, []), i);
      DropCovers(shape, j, i);
    }
  }

  lemma DropCovers(shape: Shape, j: nat, i: nat)
    requires ShapeOk(shape) && j < |shape|
    ensures Covered(Without(shape, j), i) <==> Covered(shape, i) && !InPages(shape[j], i)
  {
    hide InPages, Apart, RegionOk;
    var shape' := Without(shape, j);
    if Covered(shape', i) {
      var l :| 0 <= l < |shape'| && InPages(shape'[l], i);
      var o := if l < j then l else l + 1;
      assert shape'[l] == shape[o] && Covered(shape, i);
      if o < j { ApartPages(shape[o], shape[j], i); } else { ApartPages(shape[j], shape[o], i); }
    }
    if Covered(shape, i) && !InPages(shape[j], i) {
      var l :| 0 <= l < |shape| && InPages(shape[l], i);
      assert shape'[if l < j then l else l - 1] == shape[l];
    }
  }

  lemma ApartPages(r: Region, t: Region, i: nat)
    requires Apart(r, t)
    ensures !(InPages(r, i) && InPages(t, i))
  {
  }

  /** All that dropping an empty region does to the structs, the sums and the pages. */
  lemma DropFacts(majors: map<nat, Major>, minors: map<nat, Minor>, shape: Shape, pages: seq<nat>, pages': seq<nat>, j: nat)
    requires ShapeOk(shape) && Represents(majors, minors, shape) && Placed(shape) && TakenBy(pages, shape)
    requires j < |shape| && shape[j].chunks == []
    requires HeapPages.Cleared(pages, pages', (if shape[j].addr >= HEAP then shape[j].addr - HEAP else 0) / PAGE, shape[j].pages)
    ensures var s := Without(shape, j);
      && ShapeOk(s) && Placed(s) && TakenBy(pages', s)
      && TotalPayload(s) == TotalPayload(shape) && TotalSize(s) + shape[j].pages * PAGE == TotalSize(shape)
      && AddrAt(s, 0) == (if AddrAt(shape, 0) == shape[j].addr then AddrAt(shape, j + 1) else AddrAt(shape, 0))
      && (forall x :: Listed(shape, x) && x != shape[j].addr ==> Listed(s, x))
      && Chunks(s) == Chunks(shape)
      && shape[j].addr in majors && Represents(MajorsWithout(majors, shape[j].addr), minors, s)
  {
    hide TotalPayload, TotalSize, MajorsWithout, ShapeOk, TakenBy, Placed, Represents, Chunks, Listed, AddrAt, Without, HeapPages.Cleared;
    WithoutShapeOk(shape, j);
    DropPages(shape, pages, pages', j);
    TotalsWithout(shape, j);
    DropStructs(majors, minors, shape, j);
    DropPlaces(shape, j);
    DropChunks(shape, j);
  }

  lemma DropStructs(majors: map<nat, Major>, minors: map<nat, Minor>, shape: Shape, j: nat)
    requires ShapeOk(shape) && Represents(majors, minors, shape) && j < |shape|
    ensures shape[j].addr in majors && Represents(MajorsWithout(majors, shape[j].addr), minors, Without(shape, j))
  {
    hide MajorsWithout, ShapeOk, MajorsOf, MinorsOf;
    MajorsAfterRemoval(majors, shape, j);
  }

  lemma DropPlaces(shape: Shape, j: nat)
    requires ShapeOk(shape) && Placed(shape) && j < |shape|
    ensures Placed(Without(shape, j))
    ensures AddrAt(Without(shape, j), 0) == (if AddrAt(shape, 0) == shape[j].addr then AddrAt(shape, j + 1) else AddrAt(shape, 0))
    ensures forall x :: Listed(shape, x) && x != shape[j].addr ==> Listed(Without(shape, j), x)
  {
    hide ShapeOk;
    var s := Without(shape, j);
    RegionAddrsDistinct(shape);
    forall x | Listed(shape, x) && x != shape[j].addr ensures Listed(s, x) {
      var l :| 0 <= l < |shape| && shape[l].addr == x;
      assert s[if l < j then l else l - 1].addr == x;
    }
  }

  lemma DropChunks(shape: Shape, j: nat)
    requires j < |shape| && shape[j].chunks == []
    ensures Chunks(Without(shape, j)) == Chunks(shape)
  {
    var s := Without(shape, j);
    forall c | c in Chunks(shape) ensures c in Chunks(s) {
      var i, k :| 0 <= i < |shape| && 0 <= k < |shape[i].chunks| && shape[i].chunks[k] == c;
      assert s[if i < j then i else i - 1].chunks[k] == c;
    }
    forall c | c in Chunks(s) ensures c in Chunks(shape) {
      var i, k :| 0 <= i < |s| && 0 <= k < |s[i].chunks| && s[i].chunks[k] == c;
      assert shape[if i < j then i else i + 1].chunks[k] == c;
    }
  }

  lemma ShiftLeadsBack(shape: Shape, bytes: seq<byte>, c: Chunk)
    requires ShapeOk(shape) && Placed(shape) && c in Chunks(shape) && ShiftStored(bytes, c) && |bytes| == HEAP_BYTES
    ensures HEAP + ALIGN_INFO <= Pointer(c) && Pointer(c) - HEAP < |bytes|
    ensures Unalign(Pointer(c), bytes[Pointer(c) - ALIGN_INFO - HEAP]) == c.addr + HEADER
  {
    ChunkPlace(shape, c);
    PointerInChunk(c);
  }

  lemma RemovedFields(r: Region, k: nat)
    requires k < |r.chunks|
    ensures Removed(r, k).addr == r.addr && Removed(r, k).pages == r.pages
  {
  }

  lemma EmptyMeansNull(shape: Shape, j: nat)
    requires ShapeOk(shape) && j < |shape|
    ensures ChunkAddr(shape[j], 0) == 0 <==> shape[j].chunks == []
  {
    assert RegionOk(shape[j]);
    ChunkAddrsDistinct(shape[j]);
  }

  lemma FirstAfterRemove(r: Region, k: nat)
    requires RegionOk(r) && k < |r.chunks|
    ensures ChunkAddr(Removed(r, k), 0) == if ChunkAddr(r, k - 1) == 0 then ChunkAddr(r, k + 1) else ChunkAddr(r, 0)
    ensures ChunkAddr(r, k - 1) != r.chunks[k].addr && ChunkAddr(r, k + 1) != r.chunks[k].addr
  {
    ChunkAddrsDistinct(r);
  }

  /** All that removing a chunk does to the structs, the sums and the pages. */
  lemma RemoveFacts(majors: map<nat, Major>, minors: map<nat, Minor>, shape: Shape, pages: seq<nat>, j: nat, k: nat)
    requires ShapeOk(shape) && Represents(majors, minors, shape) && j < |shape| && k < |shape[j].chunks|
    requires Placed(shape) && TakenBy(pages, shape)
    ensures var a, c, r := shape[j].addr, shape[j].chunks[k], Removed(shape[j], k);
      && a in majors && c.addr in minors && minors[c.addr] == MinorOf(shape[j], k)
      && majors[a].usage >= c.size + HEADER
      && (minors[c.addr].prev != 0 ==> minors[c.addr].prev in minors) && (minors[c.addr].next != 0 ==> minors[c.addr].next in minors)
      && minors[c.addr].prev != c.addr && minors[c.addr].next != c.addr
      && ShapeOk(shape[j := r]) && Placed(shape[j := r]) && TakenBy(pages, shape[j := r])
      && TotalPayload(shape[j := r]) + c.size == TotalPayload(shape) && TotalSize(shape[j := r]) == TotalSize(shape)
      && AddrAt(shape[j := r], 0) == AddrAt(shape, 0) && (forall x :: Listed(shape, x) ==> Listed(shape[j := r], x))
      && Chunks(shape[j := r]) == Chunks(shape) - {c}
      && Represents(majors[a := majors[a].(usage := majors[a].usage - (c.size + HEADER),
                                           first := if minors[c.addr].prev == 0 then minors[c.addr].next else majors[a].first)],
                    Unspliced(minors, c.addr), shape[j := r])
  {
    hide ShapeOk, Represents, Placed, TakenBy, Covered, TotalPayload, TotalSize, Usage, Removed, Chunks, Unspliced, MinorsOf, ChunkAddr;
    var r := Removed(shape[j], k);
    RemovedShape(majors, minors, shape, j, k);
    RegionKnown(shape, j);
    FirstAfterRemove(shape[j], k);
    RemovedFields(shape[j], k);
    MajorKnown(majors, minors, shape, j);
    ChunksRemoved(shape, j, k);
    SamePages(shape, pages, j, r);
  }

  lemma EmptyHasNoRoom(shape: Shape, need: nat)
    ensures shape == [] ==> NoRoomAnywhere(shape, need)
  {
  }

  // ----- where the search looks, and what it finds -----

  /** The chunk was put into the first gap of the region that is large enough. */
  ghost predicate Leftmost(r: Region, r': Region, c: Chunk, need: nat) {
    exists k: nat :: k <= |r.chunks| && FirstGap(r, k, need) && r' == Inserted(r, k, c) && c.addr == Lo(r, k)
  }

  lemma LeftmostIs(r: Region, k: nat, c: Chunk, need: nat)
    requires k <= |r.chunks| && RoomAt(r, k, need) && (forall i: nat :: i < k ==> !RoomAt(r, i, need)) && c.addr == Lo(r, k)
    ensures Leftmost(r, Inserted(r, k, c), c, need)
  {
    hide RoomAt, Lo, Inserted;
    assert FirstGap(r, k, need);
  }

  ghost predicate FirstGap(r: Region, k: nat, need: nat)
    requires k <= |r.chunks|
  {
    RoomAt(r, k, need) && forall i: nat :: i < k ==> !RoomAt(r, i, need)
  }

  /** Place j is the first with room, looking from `start` on to the end and then from the beginning. */
  ghost predicate FirstFrom(shape: Shape, start: nat, j: nat, need: nat) {
    && j < |shape| && HasRoom(shape[j], need)
    && if start <= j then forall i: nat :: start <= i < j ==> !HasRoom(shape[i], need)
       else forall i: nat :: i < |shape| && (start <= i || i < j) ==> !HasRoom(shape[i], need)
  }

  /** Where kmalloc puts its chunk: into the first gap of the first region with room, or, if there is none, to the
      front of a new last region. */
  ghost predicate PlacedFirst(shape: Shape, shape': Shape, start: nat, c: Chunk, need: nat) {
    if |shape'| == |shape| then
      exists j: nat :: FirstFrom(shape, start, j, need) && shape' == shape[j := shape'[j]] && Leftmost(shape[j], shape'[j], c, need)
    else
      && |shape'| == |shape| + 1 && NoRoomAnywhere(shape, need) && shape'[..|shape|] == shape
      && need >= HEADER && shape'[|shape|] == Region(shape'[|shape|].addr, PagesNeeded(need - HEADER), [c])
      && c.addr == shape'[|shape|].addr + HEADER
  }

  /** The best bet has more free bytes in all than are needed. */
  ghost predicate BetTaken(shape: Shape, bet: nat, need: nat, start: nat) {
    bet != 0 && start < |shape| && shape[start].addr == bet && Spare(shape[start]) > need
  }

  /** The search starts at the best bet then, else at the root; best is what the best bet has free. */
  ghost predicate BetPlace(shape: Shape, bet: nat, best: int, need: nat, start: nat) {
    && (start == 0 || BetTaken(shape, bet, need, start))
    && (forall b :: 0 <= b < |shape| && BetTaken(shape, bet, need, b) ==> start == b)
    && (bet == 0 ==> best == 0)
    && (forall b :: 0 <= b < |shape| && bet != 0 && shape[b].addr == bet ==> best == Spare(shape[b]))
  }

  /** Where a new chunk goes, and which major is the best bet afterwards. */
  ghost predicate Placement(shape: Shape, bet: nat, shape': Shape, bet': nat, c: Chunk, need: nat) {
    exists start: nat, best: int :: BetPlace(shape, bet, best, need, start) && PlacedFirst(shape, shape', start, c, need)
      && BetAfter(shape, shape', BetTaken(shape, bet, need, start), start, need, bet, best, bet')
  }

  /** The bytes of a region that its headers and chunks do not take. */
  function Spare(r: Region): int {
    r.pages * PAGE - Usage(r)
  }

  lemma BetPlaceIs(shape: Shape, bet: nat, b: nat, bestSize: int, need: nat, start: nat)
    requires ShapeOk(shape)
    requires if bet != 0 then b < |shape| && shape[b].addr == bet && bestSize == Spare(shape[b]) else bestSize == 0
    requires start == if bet != 0 && bestSize > need then b else 0
    ensures BetPlace(shape, bet, bestSize, need, start)
    ensures BetTaken(shape, bet, need, start) <==> bet != 0 && bestSize > need
  {
    hide Spare;
    RegionAddrsDistinct(shape);
  }

  /** The first chunk of a region is handed out 96 bytes into its first page. */
  lemma NewRegionPointer(shape: Shape, shape': Shape, start: nat, c: Chunk, need: nat)
    requires PlacedFirst(shape, shape', start, c, need) && |shape'| != |shape| && Placed(shape')
    ensures Pointer(c) % 4096 == 96
  {
    hide PagesNeeded, NoRoomAnywhere, Align;
    assert InWindow(shape'[|shape|]);
    var n := (shape'[|shape|].addr - HEAP) / PAGE;
    assert shape'[|shape|].addr == 4096 * (0xF_FFFF_FFF0_0000 + n);
    FirstAligned(0xF_FFFF_FFF0_0000 + n);
  }

  lemma FirstAligned(k: nat)
    ensures Align(4096 * k + 80) == 4096 * k + 96
    ensures (4096 * k + 96) % 4096 == 96
  {
    assert 4096 * k + 96 == 16 * (256 * k + 6);
  }

  // ----- what kfree leaves -----

  /** Region j has more free bytes than the best bet. */
  ghost predicate Roomier(shape: Shape, j: nat, bet: nat)
    requires j < |shape|
  {
    exists b :: 0 <= b < |shape| && bet != 0 && shape[b].addr == bet && Spare(shape[j]) > Spare(shape[b])
  }

  /** The chunk is gone; so is its region, if it was the last one there, and else that may be the best bet now. */
  ghost predicate Freed(shape: Shape, bet: nat, shape': Shape, bet': nat, c: Chunk) {
    exists j: nat, k: nat :: FreedAt(shape, bet, shape', bet', c, j, k)
  }

  ghost predicate FreedAt(shape: Shape, bet: nat, shape': Shape, bet': nat, c: Chunk, j: nat, k: nat) {
    && j < |shape| && k < |shape[j].chunks| && shape[j].chunks[k] == c
    && if |shape[j].chunks| == 1 then shape' == shape[..j] + shape[j + 1..] && bet' == if bet == shape[j].addr then 0 else bet
       else
         && shape' == shape[j := shape[j].(chunks := shape[j].chunks[..k] + shape[j].chunks[k + 1..])]
         && bet' == if Roomier(shape', j, bet) then shape[j].addr else bet
  }

  lemma FreedIs(shape: Shape, bet: nat, shape1: Shape, shape': Shape, bet': nat, c: Chunk, j: nat, k: nat)
    requires j < |shape| && k < |shape[j].chunks| && shape[j].chunks[k] == c && shape1 == shape[j := Removed(shape[j], k)]
    requires shape1[j].chunks == [] ==> shape' == Without(shape1, j) && bet' == if bet == shape[j].addr then 0 else bet
    requires shape1[j].chunks != [] ==> shape' == shape1 && bet' == if Roomier(shape', j, bet) then shape[j].addr else bet
    ensures Freed(shape, bet, shape', bet', c)
  {
    hide Roomier;
    if shape1[j].chunks == [] { assert shape' == shape[..j] + shape[j + 1..]; }
    assert FreedAt(shape, bet, shape', bet', c, j, k);
  }

  lemma RoomierIs(shape: Shape, j: nat, bet: nat, b: nat)
    requires ShapeOk(shape) && j < |shape| && bet != 0 && b < |shape| && shape[b].addr == bet
    ensures Roomier(shape, j, bet) <==> Spare(shape[j]) > Spare(shape[b])
  {
    hide Spare;
    RegionAddrsDistinct(shape);
  }

  lemma NoBet(shape: Shape, j: nat)
    requires j < |shape|
    ensures !Roomier(shape, j, 0)
  {
  }

  // ----- the best bet -----

  function Span(a: nat, b: nat): seq<nat> {
    if a >= b then [] else Span(a, b - 1) + [b - 1]
  }

  /** The places looked at before place m, from `start` on; wrapped says that the search began again at the root. */
  function Route(start: nat, wrapped: bool, m: nat, n: nat): seq<nat> {
    if wrapped then Span(start, n) + Span(0, m) else Span(start, m)
  }

  /** The best bet is the first of the places looked at with the most free bytes, if that is more than it had before. */
  ghost predicate BestOf(shape: Shape, looked: seq<nat>, bet: nat, best: int, bet': nat, best': int) {
    && (forall i :: 0 <= i < |looked| ==> looked[i] < |shape| && Spare(shape[looked[i]]) <= best')
    && best <= best' && (best' == best ==> bet' == bet)
    && (best' > best ==> exists i :: 0 <= i < |looked| && FirstBest(shape, looked, i, bet', best'))
  }

  ghost predicate FirstBest(shape: Shape, looked: seq<nat>, i: nat, bet: nat, best: int)
    requires i < |looked| && forall k :: 0 <= k < |looked| ==> looked[k] < |shape|
  {
    shape[looked[i]].addr == bet && Spare(shape[looked[i]]) == best && forall k :: 0 <= k < i ==> Spare(shape[looked[k]]) < best
  }

  /** The best bet after a search that ended at place j. A major that was made because the last one had too few
      free bytes in all is not looked at; one made because they were scattered is. */
  ghost predicate BetAfter(shape: Shape, shape': Shape, bet: bool, start: nat, need: nat, was: nat, best: int, now: nat) {
    exists j: nat, best': int :: BetAt(shape, shape', bet, start, need, was, best, now, j, best')
  }

  ghost predicate BetAt(shape: Shape, shape': Shape, bet: bool, start: nat, need: nat, was: nat, best: int, now: nat, j: nat, best': int) {
    var n := |shape|;
    if |shape'| == n then FirstFrom(shape, start, j, need) && BestOf(shape, Route(start, j < start, j + 1, n), was, best, now, best')
    else
      && j == n < |shape'|
      && BestOf(shape + [shape'[n].(chunks := [])],
                Route(start, bet, if n == 0 || Spare(shape[n - 1]) >= need then n + 1 else n, n), was, best, now, best')
  }

  /** The best bet while the search stands at place m. */
  ghost predicate Betting(shape0: Shape, shape: Shape, made: bool, bet: bool, startedBet: bool, start: nat, m: nat, need: nat,
                          was: nat, best: int, now: nat, best': int) {
    var n, wrapped := |shape0|, bet && !startedBet;
    && (wrapped ==> forall j: nat :: start <= j < n ==> !HasRoom(shape0[j], need))
    && (!wrapped ==> start <= m)
    && (made ==> n == 0 || Spare(shape0[n - 1]) >= need)
    && BestOf(shape, Route(start, wrapped, m, n), was, best, now, best')
  }

  lemma {:induction false} SpanRange(a: nat, b: nat)
    ensures forall i :: 0 <= i < |Span(a, b)| ==> a <= Span(a, b)[i] < b
  {
    if a < b { SpanRange(a, b - 1); }
  }

  lemma RouteStep(start: nat, wrapped: bool, m: nat, n: nat)
    requires wrapped || start <= m
    ensures Route(start, wrapped, m, n) + [m] == Route(start, wrapped, m + 1, n)
    ensures Route(start, true, 0, n) == Route(start, false, n, n)
  {
  }

  lemma BestStep(shape: Shape, looked: seq<nat>, m: nat, was: nat, best: int, now: nat, best': int, now': nat, best'': int)
    requires m < |shape| && BestOf(shape, looked, was, best, now, best')
    requires if best' < Spare(shape[m]) then now' == shape[m].addr && best'' == Spare(shape[m]) else now' == now && best'' == best'
    ensures BestOf(shape, looked + [m], was, best, now', best'')
  {
    hide Spare;
    var all := looked + [m];
    if best' < Spare(shape[m]) {
      assert FirstBest(shape, all, |looked|, now', best'');
    } else if best'' > best {
      var i :| 0 <= i < |looked| && FirstBest(shape, looked, i, now, best');
      assert FirstBest(shape, all, i, now', best'');
    }
  }

  lemma BestGrown(shape: Shape, shape': Shape, looked: seq<nat>, was: nat, best: int, now: nat, best': int)
    requires |shape'| == |shape| + 1 && shape'[..|shape|] == shape && BestOf(shape, looked, was, best, now, best')
    ensures BestOf(shape', looked, was, best, now, best')
  {
    hide Spare;
    forall i | 0 <= i < |looked| ensures shape'[looked[i]] == shape[looked[i]] {
      assert shape'[..|shape|][looked[i]] == shape'[looked[i]];
    }
    if best' > best {
      var i :| 0 <= i < |looked| && FirstBest(shape, looked, i, now, best');
      assert FirstBest(shape', looked, i, now, best');
    }
  }

  lemma BettingStart(shape0: Shape, shape: Shape, made: bool, bet: bool, start: nat, need: nat, now: nat, best: int)
    requires made ==> shape0 == []
    ensures Betting(shape0, shape, made, bet, bet, start, start, need, now, best, now, best)
  {
    hide Spare, HasRoom;
  }

  lemma BettingLook(shape0: Shape, shape: Shape, made: bool, bet: bool, startedBet: bool, start: nat, m: nat, need: nat,
                    was: nat, best: int, now: nat, best': int, now': nat, best'': int)
    requires m < |shape| && Betting(shape0, shape, made, bet, startedBet, start, m, need, was, best, now, best')
    requires if best' < Spare(shape[m]) then now' == shape[m].addr && best'' == Spare(shape[m]) else now' == now && best'' == best'
    ensures Betting(shape0, shape, made, bet, startedBet, start, m + 1, need, was, best, now', best'')
  {
    hide Spare, HasRoom, BestOf, Route;
    RouteStep(start, bet && !startedBet, m, |shape0|);
    BestStep(shape, Route(start, bet && !startedBet, m, |shape0|), m, was, best, now, best', now', best'');
  }

  lemma BettingIs(shape0: Shape, shape: Shape, made: bool, bet: bool, startedBet: bool, start: nat, m: nat, need: nat,
                  was: nat, best: int, now: nat, best': int)
    requires Betting(shape0, shape, made, bet, startedBet, start, m, need, was, best, now, best')
    ensures BestOf(shape, Route(start, bet && !startedBet, m, |shape0|), was, best, now, best')
    ensures bet && !startedBet ==> forall j: nat :: start <= j < |shape0| ==> !HasRoom(shape0[j], need)
    ensures made ==> |shape0| == 0 || Spare(shape0[|shape0| - 1]) >= need
  {
    hide Spare, HasRoom, BestOf, Route;
  }

  lemma BettingWrap(shape0: Shape, shape: Shape, start: nat, m: nat, need: nat, was: nat, best: int, now: nat, best': int)
    requires m + 1 == |shape| && Searching(shape0, shape, false, true, start, m, need) && !HasRoom(shape[m], need)
    requires Betting(shape0, shape, false, true, true, start, m + 1, need, was, best, now, best')
    ensures Betting(shape0, shape, false, true, false, start, 0, need, was, best, now, best')
  {
    hide Spare, HasRoom, BestOf, Route;
    RouteStep(start, true, m, m + 1);
  }

  lemma BettingGrown(shape0: Shape, shape: Shape, bet: bool, start: nat, m: nat, need: nat, was: nat, best: int, now: nat, best': int)
    requires m + 1 == |shape0| && |shape| == |shape0| + 1 && shape[..|shape0|] == shape0
    requires Betting(shape0, shape0, false, bet, false, start, m + 1, need, was, best, now, best')
    ensures BestOf(shape, Route(start, bet, m + 1, |shape0|), was, best, now, best')
    ensures Spare(shape0[m]) >= need ==> Betting(shape0, shape, true, bet, false, start, m + 1, need, was, best, now, best')
  {
    hide Spare, HasRoom, BestOf, Route;
    BestGrown(shape0, shape, Route(start, bet, m + 1, |shape0|), was, best, now, best');
  }

  /** The search is over at place m, having looked at the places before `looked`. */
  lemma BettingDone(shape0: Shape, shape: Shape, made: bool, bet: bool, startedBet: bool, start: nat, m: nat, looked: nat, need: nat,
                    was: nat, best: int, now: nat, best': int, shape': Shape, c: Chunk)
    requires Searching(shape0, shape, made, startedBet, start, m, need) && (startedBet ==> bet) && (!bet ==> start == 0)
    requires |shape'| == |shape| && shape' == shape[m := shape'[m]] && Leftmost(shape[m], shape'[m], c, need)
    requires BestOf(shape, Route(start, bet && !startedBet, looked, |shape0|), was, best, now, best')
    requires bet && !startedBet ==> forall j: nat :: start <= j < |shape0| ==> !HasRoom(shape0[j], need)
    requires if made then looked == (if |shape0| == 0 || Spare(shape0[|shape0| - 1]) >= need then m + 1 else m) else looked == m + 1
    ensures BetAfter(shape0, shape', bet, start, need, was, best, now)
  {
    hide Spare, BestOf, Route, RoomAt, PagesNeeded;
    var k: nat :| k <= |shape[m].chunks| && FirstGap(shape[m], k, need) && shape'[m] == Inserted(shape[m], k, c) && c.addr == Lo(shape[m], k);
    assert HasRoom(shape[m], need);
    hide HasRoom;
    if made {
      assert shape == shape0 + [shape[m]] && shape'[m].(chunks := []) == shape[m];
      assert BetAt(shape0, shape', bet, start, need, was, best, now, m, best');
    } else {
      assert FirstFrom(shape0, start, m, need);
      assert (bet && !startedBet) == (m < start);
      assert BetAt(shape0, shape', bet, start, need, was, best, now, m, best');
    }
  }

  lemma SearchStart(shape: Shape, bet: bool, m: nat, need: nat)
    requires m < |shape| && (bet || m == 0)
    ensures Searching(shape, shape, false, bet, m, m, need)
  {
  }

  /** Where a search that began at place `start` stands: at place m, with no room in the majors it has passed, and
      perhaps having added an empty major, which is then where it stands. */
  ghost predicate Searching(shape0: Shape, shape: Shape, made: bool, bet: bool, start: nat, m: nat, need: nat) {
    && m < |shape|
    && (if made then |shape| == |shape0| + 1 && shape[..|shape0|] == shape0 && shape[|shape0|].chunks == []
                  && RoomAt(shape[|shape0|], 0, need) && !bet && m == |shape0| && NoRoomAnywhere(shape0, need)
                  && need >= HEADER && shape[|shape0|].pages == PagesNeeded(need - HEADER)
        else shape == shape0)
    && (bet ==> start <= m && forall j: nat :: start <= j < m ==> !HasRoom(shape[j], need))
    && (!bet ==> forall j :: 0 <= j < m ==> !HasRoom(shape[j], need))
    && (!bet ==> forall j: nat :: 0 < start <= j < |shape0| ==> !HasRoom(shape0[j], need))
  }

  lemma SearchNext(shape0: Shape, shape: Shape, made: bool, bet: bool, start: nat, m: nat, need: nat)
    requires Searching(shape0, shape, made, bet, start, m, need) && !HasRoom(shape[m], need) && !RoomAt(shape[m], 0, need)
    ensures !made && shape == shape0
    ensures m + 1 < |shape| ==> Searching(shape0, shape, made, bet, start, m + 1, need)
    ensures bet && m + 1 == |shape| ==> Searching(shape0, shape, made, false, start, 0, need)
    ensures m + 1 == |shape| && !bet ==> NoRoomAnywhere(shape0, need)
  {
    hide HasRoom, RoomAt, PagesNeeded;
  }

  lemma SearchGrown(shape0: Shape, shape: Shape, start: nat, need: nat)
    requires |shape| == |shape0| + 1 && shape[..|shape0|] == shape0 && shape[|shape0|].chunks == []
    requires RoomAt(shape[|shape0|], 0, need) && NoRoomAnywhere(shape0, need)
    requires need >= HEADER && shape[|shape0|].pages == PagesNeeded(need - HEADER)
    ensures Searching(shape0, shape, true, false, start, |shape0|, need)
  {
    hide HasRoom, RoomAt, PagesNeeded;
    forall j | 0 <= j < |shape0| ensures !HasRoom(shape[j], need) {
      assert shape[j] == shape[..|shape0|][j];
    }
  }

  lemma SearchHere(shape0: Shape, shape: Shape, made: bool, bet: bool, start: nat, m: nat, need: nat)
    requires Searching(shape0, shape, made, bet, start, m, need) && NonEmpty(shape0)
    ensures shape[m].chunks == [] ==> RoomAt(shape[m], 0, need)
  {
    hide HasRoom, RoomAt, PagesNeeded;
  }

  lemma SearchDone(shape0: Shape, shape: Shape, made: bool, bet: bool, start: nat, m: nat, need: nat, bytes: seq<byte>, shape': Shape, bytes': seq<byte>, c: Chunk)
    requires Searching(shape0, shape, made, bet, start, m, need) && NonEmpty(shape0) && Allocated(shape, bytes, shape', bytes', c)
    requires |shape'| == |shape| && shape' == shape[m := shape'[m]] && shape'[m].chunks != []
    ensures NonEmpty(shape') && Allocated(shape0, bytes, shape', bytes', c)
    ensures |shape'| != |shape0| ==> |shape'| == |shape0| + 1 && NoRoomAnywhere(shape0, need)
  {
    hide HasRoom, RoomAt, Allocated, PagesNeeded;
    AllocatedOver(shape0, shape, bytes, shape', bytes', c);
    forall j | 0 <= j < |shape'| ensures shape'[j].chunks != [] {
      if j != m {
        assert shape'[j] == shape[j];
        assert made ==> shape[j] == shape[..|shape0|][j];
      }
    }
  }

  lemma SearchPlaced(shape0: Shape, shape: Shape, made: bool, bet: bool, start: nat, m: nat, need: nat, shape': Shape, c: Chunk)
    requires Searching(shape0, shape, made, bet, start, m, need)
    requires |shape'| == |shape| && shape' == shape[m := shape'[m]] && Leftmost(shape[m], shape'[m], c, need)
    ensures PlacedFirst(shape0, shape', start, c, need)
  {
    hide RoomAt, PagesNeeded;
    var k: nat :| k <= |shape[m].chunks| && FirstGap(shape[m], k, need) && shape'[m] == Inserted(shape[m], k, c) && c.addr == Lo(shape[m], k);
    assert HasRoom(shape[m], need);
    hide HasRoom;
    if made {
      assert shape'[..|shape0|] == shape0;
      assert shape[m].chunks[..0] + [c] + shape[m].chunks[0..] == [c];
    } else {
      assert FirstFrom(shape0, start, m, need);
    }
  }

  lemma FrontRoom(r: Region, need: nat)
    ensures RoomAt(r, 0, need) ==> HasRoom(r, need)
  {
  }

  lemma NoRoomLeft(shape: Shape, j: nat, need: nat)
    requires ShapeOk(shape) && j < |shape| && shape[j].pages * PAGE - Usage(shape[j]) < need
    ensures !HasRoom(shape[j], need) && !RoomAt(shape[j], 0, need)
  {
    assert RegionOk(shape[j]);
    TooFull(shape[j], need);
  }

  /** Allocating in a heap that has just grown by an empty region. */
  lemma AllocatedOver(shape: Shape, grown: Shape, bytes: seq<byte>, shape': Shape, bytes': seq<byte>, c: Chunk)
    requires grown == shape || (|grown| == |shape| + 1 && grown[..|shape|] == shape && grown[|shape|].chunks == [])
    requires Allocated(grown, bytes, shape', bytes', c)
    ensures Allocated(shape, bytes, shape', bytes', c)
  {
    if grown != shape {
      assert grown == shape + [grown[|shape|]];
      GrowChunks(shape, grown[|shape|]);
    }
  }

  lemma RegionFree(shape: Shape, j: nat)
    requires ShapeOk(shape) && j < |shape|
    ensures Usage(shape[j]) <= shape[j].pages * PAGE
  {
    assert RegionOk(shape[j]);
    GapAtMostFree(shape[j], 0);
    assert Lo(shape[j], 0) <= Hi(shape[j], 0);
  }

  lemma MinorKnown(minors: map<nat, Minor>, r: Region, k: nat)
    requires MinorsOf(minors, r) && k < |r.chunks|
    ensures r.chunks[k].addr in minors && minors[r.chunks[k].addr] == MinorOf(r, k)
  {
  }

  lemma LinkMajor(majors: map<nat, Major>, last: nat, a: nat, n: nat)
    requires a != last && (last != 0 ==> last in majors)
    ensures var m := majors[a := Major(0, 0, n, n * PAGE, HEADER, 0)];
      MajorsWith(majors, last, a, Major(last, 0, n, n * PAGE, HEADER, 0)) ==
      if last == 0 then m else m[last := m[last].(next := a)][a := m[a].(prev := last)]
  {
  }

  /** Two page-aligned regions with no page in common are apart. */
  lemma ApartByPages(r: Region, s: Region)
    requires InWindow(r) && InWindow(s) && r.pages > 0 && s.pages > 0
    requires forall i: nat :: i < HeapPages.HEAP_PAGES ==> !(InPages(r, i) && InPages(s, i))
    ensures Apart(r, s)
  {
    var top := if r.addr > s.addr then r.addr else s.addr;
    var i := (top - HEAP) / PAGE;
    assert HEAP + i * PAGE == top;
    if !Apart(r, s) {
      assert InPages(r, i) && InPages(s, i);
    }
  }

  /** All that a new region does to the structs, the sums and the pages. */
  lemma GrowFacts(majors: map<nat, Major>, minors: map<nat, Minor>, shape: Shape, pages: seq<nat>, pages': seq<nat>, a: nat, n: nat)
    requires ShapeOk(shape) && Represents(majors, minors, shape) && Placed(shape) && TakenBy(pages, shape)
    requires n > 0 && a >= HEAP && (a - HEAP) % PAGE == 0 && (a - HEAP) / PAGE + n <= HeapPages.HEAP_PAGES
    requires IsFirst(HeapPages.FreeCells(pages), Anywhere(), 0, HeapPages.HEAP_PAGES, (a - HEAP) / PAGE, n)
    requires HeapPages.Backed(pages, pages', (a - HEAP) / PAGE, n)
    ensures var r, last := Region(a, n, []), AddrAt(shape, |shape| - 1);
      && ShapeOk(shape + [r]) && Placed(shape + [r]) && TakenBy(pages', shape + [r])
      && TotalPayload(shape + [r]) == TotalPayload(shape) && TotalSize(shape + [r]) == TotalSize(shape) + n * PAGE
      && AddrAt(shape + [r], 0) == (if shape == [] then a else AddrAt(shape, 0)) && (last == 0 <==> shape == [])
      && (forall x :: Listed(shape, x) ==> Listed(shape + [r], x))
      && Chunks(shape + [r]) == Chunks(shape)
      && a != last && (last != 0 ==> last in majors)
      && Represents(MajorsWith(majors, last, a, Major(last, 0, n, n * PAGE, HEADER, 0)), minors, shape + [r])
  {
    hide TotalPayload, TotalSize, Represents, IsFirst;
    var r := Region(a, n, []);
    NewRegionFree(pages, (a - HEAP) / PAGE, n);
    GrowPages(shape, pages, pages', a, n);
    GrowShape(shape, pages, a, n);
    GrowStructs(majors, minors, shape, r);
    TotalsAppend(shape, [r]);
    RegionAddrsPositive(shape);
    OneRegionTotals(r);
    forall x | Listed(shape, x) ensures Listed(shape + [r], x) {
      var l :| 0 <= l < |shape| && shape[l].addr == x;
      assert (shape + [r])[l].addr == x;
    }
    GrowChunks(shape, r);
  }

  lemma OneRegionTotals(r: Region)
    requires r.chunks == []
    ensures TotalPayload([r]) == 0 && TotalSize([r]) == r.pages * PAGE
  {
    assert [r][..0] == [];
  }

  lemma GrowChunks(shape: Shape, r: Region)
    requires r.chunks == []
    ensures Chunks(shape + [r]) == Chunks(shape)
  {
    forall c | c in Chunks(shape) ensures c in Chunks(shape + [r]) {
      var j, k :| 0 <= j < |shape| && 0 <= k < |shape[j].chunks| && shape[j].chunks[k] == c;
      assert (shape + [r])[j].chunks[k] == c;
    }
  }

  lemma NewRegionFree(pages: seq<nat>, base: nat, n: nat)
    requires IsFirst(HeapPages.FreeCells(pages), Anywhere(), 0, HeapPages.HEAP_PAGES, base, n)
    requires |pages| == HeapPages.HEAP_PAGES
    ensures forall k :: base <= k < base + n ==> pages[k] == 0
  {
    forall k | base <= k < base + n ensures pages[k] == 0 {
      assert k in HeapPages.FreeCells(pages);
    }
  }

  lemma RegionPages(a: nat, n: nat, i: nat)
    requires a >= HEAP && (a - HEAP) % PAGE == 0
    ensures InPages(Region(a, n, []), i) <==> (a - HEAP) / PAGE <= i < (a - HEAP) / PAGE + n
  {
    var base := (a - HEAP) / PAGE;
    assert a == HEAP + base * PAGE;
  }

  lemma GrowPages(shape: Shape, pages: seq<nat>, pages': seq<nat>, a: nat, n: nat)
    requires TakenBy(pages, shape) && a >= HEAP && (a - HEAP) % PAGE == 0
    requires HeapPages.Backed(pages, pages', (a - HEAP) / PAGE, n)
    ensures TakenBy(pages', shape + [Region(a, n, [])])
  {
    var r := Region(a, n, []);
    var shape' := shape + [r];
    forall i | 0 <= i < |pages'| ensures pages'[i] != 0 <==> Covered(shape', i) {
      RegionPages(a, n, i);
      if Covered(shape, i) {
        var l :| 0 <= l < |shape| && InPages(shape[l], i);
        assert InPages(shape'[l], i);
      }
      if InPages(r, i) { assert InPages(shape'[|shape|], i); }
      if Covered(shape', i) && !InPages(r, i) {
        var l :| 0 <= l < |shape'| && InPages(shape'[l], i);
        assert InPages(shape[l], i);
      }
    }
  }

  lemma GrowShape(shape: Shape, pages: seq<nat>, a: nat, n: nat)
    requires ShapeOk(shape) && Placed(shape) && TakenBy(pages, shape)
    requires n > 0 && a >= HEAP && (a - HEAP) % PAGE == 0 && (a - HEAP) / PAGE + n <= HeapPages.HEAP_PAGES
    requires forall k :: (a - HEAP) / PAGE <= k < (a - HEAP) / PAGE + n ==> pages[k] == 0
    ensures ShapeOk(shape + [Region(a, n, [])]) && Placed(shape + [Region(a, n, [])])
  {
    hide ShapeOk;
    var r := Region(a, n, []);
    assert InWindow(r) && RegionOk(r);
    forall j | 0 <= j < |shape| ensures Apart(shape[j], r) {
      RegionKnown(shape, j);
      forall i: nat | i < HeapPages.HEAP_PAGES ensures !(InPages(r, i) && InPages(shape[j], i)) {
        RegionPages(a, n, i);
        assert InPages(shape[j], i) ==> Covered(shape, i);
      }
      ApartByPages(shape[j], r);
    }
    AppendShapeOk(shape, r);
  }

  lemma AppendShapeOk(shape: Shape, r: Region)
    requires ShapeOk(shape) && RegionOk(r) && forall j :: 0 <= j < |shape| ==> Apart(shape[j], r)
    ensures ShapeOk(shape + [r])
  {
  }

  lemma GrowStructs(majors: map<nat, Major>, minors: map<nat, Minor>, shape: Shape, r: Region)
    requires ShapeOk(shape + [r]) && Represents(majors, minors, shape) && r.chunks == []
    ensures var last := AddrAt(shape, |shape| - 1);
      && last != r.addr && (last != 0 ==> last in majors)
      && Represents(MajorsWith(majors, last, r.addr, Major(last, 0, r.pages, r.pages * PAGE, HEADER, 0)), minors, shape + [r])
  {
    hide ShapeOk;
    var shape' := shape + [r];
    AppendedMajors(majors, shape, r);
    RegionAddrsPositive(shape');
    RegionAddrsDistinct(shape');
    assert shape'[|shape|] == r;
    assert shape != [] ==> shape'[|shape| - 1] == shape[|shape| - 1];
  }

  /** All that inserting a chunk does to the structs, the sums and the pages. */
  lemma InsertFacts(majors: map<nat, Major>, minors: map<nat, Minor>, shape: Shape, pages: seq<nat>, j: nat, k: nat, c: Chunk)
    requires ShapeOk(shape) && Represents(majors, minors, shape) && j < |shape| && k <= |shape[j].chunks|
    requires c.addr == Lo(shape[j], k) && End(c) <= Hi(shape[j], k) && c.req + 32 <= c.size
    requires Placed(shape) && TakenBy(pages, shape)
    ensures var a, m, r := shape[j].addr, NewMinor(shape[j], k, c), Inserted(shape[j], k, c);
      && a in majors && (m.prev != 0 ==> m.prev in minors) && (m.next != 0 ==> m.next in minors)
      && c.addr != m.prev && c.addr != m.next
      && ShapeOk(shape[j := r]) && Placed(shape[j := r]) && TakenBy(pages, shape[j := r])
      && TotalPayload(shape[j := r]) == TotalPayload(shape) + c.size && TotalSize(shape[j := r]) == TotalSize(shape)
      && AddrAt(shape[j := r], 0) == AddrAt(shape, 0) && (forall x :: Listed(shape, x) ==> Listed(shape[j := r], x))
      && c !in Chunks(shape) && Chunks(shape[j := r]) == Chunks(shape) + {c}
      && Represents(majors[a := majors[a].(usage := majors[a].usage + c.size + HEADER, first := if m.prev == 0 then c.addr else majors[a].first)],
                    Spliced(minors, c.addr, m), shape[j := r])
  {
    hide ShapeOk, Represents, Placed, TakenBy, Covered, TotalPayload, TotalSize, Usage, Lo, Hi, Inserted, Chunks, Spliced, MinorsOf, ChunkAddr;
    var r := Inserted(shape[j], k, c);
    InsertedShape(majors, minors, shape, j, k, c);
    RegionKnown(shape, j);
    FirstAfterInsert(shape[j], k, c);
    InsertedFields(shape[j], k, c);
    MajorKnown(majors, minors, shape, j);
    NewNeighbours(minors, shape[j], k, c);
    ChunksInserted(shape, j, k, c);
    NewChunkIsNew(shape, j, k, c);
    SamePages(shape, pages, j, r);
  }

  /** Between two states of the heap, chunk c came to life and no other byte in use changed. */
  ghost predicate Allocated(shape: Shape, bytes: seq<byte>, shape': Shape, bytes': seq<byte>, c: Chunk) {
    && c !in Chunks(shape) && Chunks(shape') == Chunks(shape) + {c}
    && SameData(shape, bytes, bytes')
  }

  ghost predicate SameData(shape: Shape, bytes: seq<byte>, bytes': seq<byte>) {
    forall d :: d in Chunks(shape) ==>
      && HEAP <= Pointer(d) && Pointer(d) - HEAP + d.req <= |bytes| && |bytes'| == |bytes|
      && Data(bytes', d) == Data(bytes, d)
  }

  lemma HookTableLength(h: HeapPages.PageHook)
    requires h.Valid()
    ensures h.physicalPages.Length == HeapPages.HEAP_PAGES
  {
  }

  lemma FirstAfterInsert(r: Region, k: nat, c: Chunk)
    requires RegionOk(r) && k <= |r.chunks|
    ensures ChunkAddr(r, k - 1) == 0 <==> k == 0
    ensures ChunkAddr(Inserted(r, k, c), 0) == if k == 0 then c.addr else ChunkAddr(r, 0)
  {
    if k > 0 { ChunkInside(r, k - 1); }
  }

  lemma InsertedFields(r: Region, k: nat, c: Chunk)
    requires k <= |r.chunks|
    ensures Inserted(r, k, c).addr == r.addr && Inserted(r, k, c).pages == r.pages
  {
  }

  lemma MajorKnown(majors: map<nat, Major>, minors: map<nat, Minor>, shape: Shape, j: nat)
    requires Represents(majors, minors, shape) && j < |shape|
    ensures shape[j].addr in majors && majors[shape[j].addr] == MajorOf(shape, j)
    ensures MinorsOf(minors, shape[j])
  {
  }

  lemma RegionKnown(shape: Shape, j: nat)
    requires ShapeOk(shape) && j < |shape|
    ensures RegionOk(shape[j])
  {
  }

  lemma NewChunkIsNew(shape: Shape, j: nat, k: nat, c: Chunk)
    requires ShapeOk(shape) && j < |shape| && k <= |shape[j].chunks|
    requires ShapeOk(shape[j := Inserted(shape[j], k, c)])
    ensures c !in Chunks(shape)
  {
    hide ShapeOk;
    var shape' := shape[j := Inserted(shape[j], k, c)];
    if c in Chunks(shape) {
      var i, l :| 0 <= i < |shape| && 0 <= l < |shape[i].chunks| && shape[i].chunks[l] == c;
      var l' := if i == j && l >= k then l + 1 else l;
      assert shape'[i].chunks[l'] == c && shape'[j].chunks[k] == c;
      ChunksApart(shape', i, l', j, k);
      assert false;
    }
  }

  /** Changing the chunks of a region moves no page. */
  lemma SamePages(shape: Shape, pages: seq<nat>, j: nat, r: Region)
    requires j < |shape| && r.addr == shape[j].addr && r.pages == shape[j].pages
    requires Placed(shape) && TakenBy(pages, shape)
    ensures Placed(shape[j := r]) && TakenBy(pages, shape[j := r])
    ensures AddrAt(shape[j := r], 0) == AddrAt(shape, 0)
    ensures forall a :: Listed(shape, a) ==> Listed(shape[j := r], a)
  {
    var shape' := shape[j := r];
    assert forall i :: 0 <= i < |shape| ==> shape'[i].addr == shape[i].addr && Limit(shape'[i]) == Limit(shape[i]);
    forall i: nat ensures Covered(shape', i) <==> Covered(shape, i) {
      if Covered(shape, i) {
        var l :| 0 <= l < |shape| && InPages(shape[l], i);
        assert InPages(shape'[l], i);
      }
      if Covered(shape', i) {
        var l :| 0 <= l < |shape'| && InPages(shape'[l], i);
        assert InPages(shape[l], i);
      }
    }
    forall a | Listed(shape, a) ensures Listed(shape', a) {
      var l :| 0 <= l < |shape| && shape[l].addr == a;
      assert shape'[l].addr == a;
    }
  }

  /** Storing the shift of a new chunk disturbs no other chunk. */
  lemma StoreShift(shape: Shape, shape': Shape, bytes: seq<byte>, c: Chunk)
    requires ShapeOk(shape') && Placed(shape') && |bytes| == HEAP_BYTES
    requires c !in Chunks(shape) && Chunks(shape') == Chunks(shape) + {c}
    requires forall d :: d in Chunks(shape) ==> ShiftStored(bytes, d)
    ensures HEAP <= Pointer(c) - ALIGN_INFO && Pointer(c) - HEAP < |bytes|
    ensures var bytes' := bytes[Pointer(c) - ALIGN_INFO - HEAP := Shift(c)];
      SameData(shape, bytes, bytes') && forall d :: d in Chunks(shape') ==> ShiftStored(bytes', d)
  {
    hide ShapeOk, Placed, Chunks;
    ChunkPlace(shape', c);
    PointerInChunk(c);
    var bytes' := bytes[Pointer(c) - ALIGN_INFO - HEAP := Shift(c)];
    forall d | d in Chunks(shape')
      ensures ShiftStored(bytes', d) && (d != c ==> Data(bytes', d) == Data(bytes, d))
    {
      ChunkPlace(shape', d);
      PointerInChunk(d);
      if d != c { LiveChunksApart(shape', c, d); }
    }
  }
}

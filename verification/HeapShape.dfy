/** The kernel heap as values: regions of pages ("majors"), each holding chunks ("minors") in
    address order, and the linked structs that represent them in memory. */
module HeapShape {

  const HEADER: nat := 40
  const PAGE: nat := 4096
  const MAGIC: nat := 0xc001c0de
  const DEAD: nat := 0xdeaddead

  datatype Major = Major(prev: nat, next: nat, pages: nat, size: nat, usage: nat, first: nat)
  datatype Minor = Minor(prev: nat, next: nat, block: nat, magic: nat, size: nat, reqSize: nat)

  /** A chunk is a header of 40 bytes at `addr` and `size` bytes of payload, of which the caller
      asked for `req`. */
  datatype Chunk = Chunk(addr: nat, size: nat, req: nat)
  datatype Region = Region(addr: nat, pages: nat, chunks: seq<Chunk>)
  type Shape = seq<Region>

  function End(c: Chunk): nat {
    c.addr + HEADER + c.size
  }

  function Limit(r: Region): nat {
    r.addr + r.pages * PAGE
  }

  // ----- gaps -----

  /** The free bytes before chunk k (or, for k == |chunks|, after the last) are [Lo, Hi). */
  function Lo(r: Region, k: nat): nat
    requires k <= |r.chunks|
  {
    if k == 0 then r.addr + HEADER else End(r.chunks[k - 1])
  }

  function Hi(r: Region, k: nat): nat
    requires k <= |r.chunks|
  {
    if k == |r.chunks| then Limit(r) else r.chunks[k].addr
  }

  /** Chunks are in address order, apart from each other, and inside the region. */
  predicate Packed(r: Region) {
    forall k :: 0 <= k <= |r.chunks| ==> Lo(r, k) <= Hi(r, k)
  }

  /** Headers and payloads together. */
  function Bytes(cs: seq<Chunk>): nat {
    if cs == [] then 0 else Bytes(cs[..|cs| - 1]) + HEADER + cs[|cs| - 1].size
  }

  function Payload(cs: seq<Chunk>): nat {
    if cs == [] then 0 else Payload(cs[..|cs| - 1]) + cs[|cs| - 1].size
  }

  function Usage(r: Region): nat {
    HEADER + Bytes(r.chunks)
  }

  /** Up to gap m, the chunks and any one earlier gap fit side by side. */
  lemma {:induction false} GapsAndBytes(r: Region, k: nat, m: nat)
    requires Packed(r) && k < m <= |r.chunks|
    ensures r.addr + HEADER + Bytes(r.chunks[..m]) + (Hi(r, k) - Lo(r, k)) <= Lo(r, m)
    decreases m
  {
    assert r.chunks[..m][..m - 1] == r.chunks[..m - 1];
    assert Lo(r, m - 1) <= Hi(r, m - 1);
    if k < m - 1 {
      GapsAndBytes(r, k, m - 1);
    } else {
      PrefixBytes(r, m - 1);
    }
  }

  lemma {:induction false} PrefixBytes(r: Region, m: nat)
    requires Packed(r) && m <= |r.chunks|
    ensures r.addr + HEADER + Bytes(r.chunks[..m]) <= Lo(r, m)
    decreases m
  {
    if m > 0 {
      assert r.chunks[..m][..m - 1] == r.chunks[..m - 1];
      assert Lo(r, m - 1) <= Hi(r, m - 1);
      PrefixBytes(r, m - 1);
    }
  }

  /** No gap is larger than the region's size minus its usage: a region with too few free bytes
      in all has no room anywhere. */
  lemma GapAtMostFree(r: Region, k: nat)
    requires Packed(r) && k <= |r.chunks|
    ensures Usage(r) + (Hi(r, k) - Lo(r, k)) <= r.pages * PAGE
  {
    assert r.chunks[..|r.chunks|] == r.chunks;
    if k < |r.chunks| {
      GapsAndBytes(r, k, |r.chunks|);
      assert Lo(r, |r.chunks|) <= Hi(r, |r.chunks|);
    } else {
      PrefixBytes(r, k);
    }
  }

  predicate HasRoom(r: Region, need: nat) {
    exists k :: 0 <= k <= |r.chunks| && RoomAt(r, k, need)
  }

  predicate RoomAt(r: Region, k: nat, need: nat)
    requires k <= |r.chunks|
  {
    Hi(r, k) - Lo(r, k) >= need
  }

  lemma TooFull(r: Region, need: nat)
    requires Packed(r) && r.pages * PAGE - Usage(r) < need
    ensures !HasRoom(r, need)
  {
    forall k | 0 <= k <= |r.chunks| ensures !RoomAt(r, k, need) {
      GapAtMostFree(r, k);
    }
  }

  lemma {:induction false} ChunkOrder(r: Region, i: nat, k: nat)
    requires Packed(r) && i < k <= |r.chunks|
    ensures End(r.chunks[i]) <= Lo(r, k) <= Hi(r, k)
    decreases k
  {
    assert Lo(r, k) <= Hi(r, k);
    if i < k - 1 {
      ChunkOrder(r, i, k - 1);
    }
  }

  lemma ChunkInside(r: Region, k: nat)
    requires Packed(r) && k < |r.chunks|
    ensures r.addr + HEADER <= r.chunks[k].addr && End(r.chunks[k]) <= Limit(r)
  {
    assert Lo(r, 0) <= Hi(r, 0);
    if k > 0 { ChunkOrder(r, 0, k); }
    ChunkOrder(r, k, |r.chunks|);
  }

  // ----- inserting and removing a chunk -----

  function Inserted(r: Region, k: nat, c: Chunk): Region
    requires k <= |r.chunks|
  {
    r.(chunks := r.chunks[..k] + [c] + r.chunks[k..])
  }

  function Removed(r: Region, k: nat): Region
    requires k < |r.chunks|
  {
    r.(chunks := r.chunks[..k] + r.chunks[k + 1..])
  }

  lemma InsertedPacked(r: Region, k: nat, c: Chunk)
    requires Packed(r) && k <= |r.chunks| && c.addr == Lo(r, k) && End(c) <= Hi(r, k)
    ensures Packed(Inserted(r, k, c))
  {
    var r' := Inserted(r, k, c);
    forall m | 0 <= m <= |r'.chunks| ensures Lo(r', m) <= Hi(r', m) {
      assert m <= |r.chunks| ==> Lo(r, m) <= Hi(r, m);
      assert m > 0 ==> Lo(r, m - 1) <= Hi(r, m - 1);
    }
  }

  lemma RemovedPacked(r: Region, k: nat)
    requires Packed(r) && k < |r.chunks|
    ensures Packed(Removed(r, k))
  {
    var r' := Removed(r, k);
    forall m | 0 <= m <= |r'.chunks| ensures Lo(r', m) <= Hi(r', m) {
      assert Lo(r, m) <= Hi(r, m) && Lo(r, m + 1) <= Hi(r, m + 1);
    }
  }

  lemma {:induction false} BytesAppend(a: seq<Chunk>, b: seq<Chunk>)
    ensures Bytes(a + b) == Bytes(a) + Bytes(b)
    ensures Payload(a + b) == Payload(a) + Payload(b)
    decreases |b|
  {
    if b == [] {
      assert a + b == a;
    } else {
      assert (a + b)[..|a + b| - 1] == a + b[..|b| - 1];
      BytesAppend(a, b[..|b| - 1]);
    }
  }

  lemma InsertedBytes(r: Region, k: nat, c: Chunk)
    requires k <= |r.chunks|
    ensures Bytes(Inserted(r, k, c).chunks) == Bytes(r.chunks) + c.size + HEADER
    ensures Payload(Inserted(r, k, c).chunks) == Payload(r.chunks) + c.size
  {
    BytesAppend(r.chunks[..k] + [c], r.chunks[k..]);
    BytesAppend(r.chunks[..k], [c]);
    BytesAppend(r.chunks[..k], r.chunks[k..]);
    assert r.chunks[..k] + r.chunks[k..] == r.chunks;
  }

  lemma RemovedBytes(r: Region, k: nat)
    requires k < |r.chunks|
    ensures Bytes(Removed(r, k).chunks) + r.chunks[k].size + HEADER == Bytes(r.chunks)
    ensures Payload(Removed(r, k).chunks) + r.chunks[k].size == Payload(r.chunks)
  {
    var r' := Removed(r, k);
    assert Inserted(r', k, r.chunks[k]).chunks == r.chunks;
    InsertedBytes(r', k, r.chunks[k]);
  }

  // ----- shapes -----

  predicate Apart(r: Region, s: Region) {
    Limit(r) <= s.addr || Limit(s) <= r.addr
  }

  predicate RegionOk(r: Region) {
    && r.addr > 0 && r.pages > 0 && Packed(r)
    && forall k :: 0 <= k < |r.chunks| ==> r.chunks[k].req + 32 <= r.chunks[k].size
  }

  predicate ShapeOk(shape: Shape) {
    && (forall j :: 0 <= j < |shape| ==> RegionOk(shape[j]))
    && (forall i, j :: 0 <= i < j < |shape| ==> Apart(shape[i], shape[j]))
  }

  function AddrAt(shape: Shape, j: int): nat {
    if 0 <= j < |shape| then shape[j].addr else 0
  }

  function ChunkAddr(r: Region, k: int): nat {
    if 0 <= k < |r.chunks| then r.chunks[k].addr else 0
  }

  lemma RegionAddrsDiffer(shape: Shape, i: nat, j: nat)
    requires ShapeOk(shape) && i < |shape| && j < |shape| && i != j
    ensures shape[i].addr != shape[j].addr
  {
    assert RegionOk(shape[i]) && RegionOk(shape[j]);
    assert if i < j then Apart(shape[i], shape[j]) else Apart(shape[j], shape[i]);
  }

  lemma RegionAddrsDistinct(shape: Shape)
    requires ShapeOk(shape)
    ensures forall i, j :: 0 <= i < j < |shape| ==> shape[i].addr != shape[j].addr
  {
    hide ShapeOk;
    forall i, j | 0 <= i < j < |shape| ensures shape[i].addr != shape[j].addr {
      RegionAddrsDiffer(shape, i, j);
    }
  }

  lemma RegionAddrsPositive(shape: Shape)
    requires ShapeOk(shape)
    ensures forall j :: 0 <= j < |shape| ==> shape[j].addr > 0
  {
    assert forall j :: 0 <= j < |shape| ==> RegionOk(shape[j]);
  }

  /** Distinct chunks, headers included, do not overlap; in particular they differ in address. */
  lemma ChunksApart(shape: Shape, i: nat, k: nat, j: nat, l: nat)
    requires ShapeOk(shape) && i < |shape| && j < |shape|
    requires k < |shape[i].chunks| && l < |shape[j].chunks| && (i != j || k != l)
    ensures End(shape[i].chunks[k]) <= shape[j].chunks[l].addr || End(shape[j].chunks[l]) <= shape[i].chunks[k].addr
  {
    assert RegionOk(shape[i]) && RegionOk(shape[j]);
    if i == j {
      if k < l { ChunkOrder(shape[i], k, l); } else { ChunkOrder(shape[i], l, k); }
    } else {
      ChunkInside(shape[i], k);
      ChunkInside(shape[j], l);
      assert if i < j then Apart(shape[i], shape[j]) else Apart(shape[j], shape[i]);
    }
  }

  // ----- the structs that represent a shape -----

  function MajorOf(shape: Shape, j: nat): Major
    requires j < |shape|
  {
    Major(AddrAt(shape, j - 1), AddrAt(shape, j + 1), shape[j].pages, shape[j].pages * PAGE, Usage(shape[j]), ChunkAddr(shape[j], 0))
  }

  function MinorOf(r: Region, k: nat): Minor
    requires k < |r.chunks|
  {
    Minor(ChunkAddr(r, k - 1), ChunkAddr(r, k + 1), r.addr, MAGIC, r.chunks[k].size, r.chunks[k].req)
  }

  predicate MajorsOf(majors: map<nat, Major>, shape: Shape) {
    forall j :: 0 <= j < |shape| ==> shape[j].addr in majors && majors[shape[j].addr] == MajorOf(shape, j)
  }

  predicate MinorsOf(minors: map<nat, Minor>, r: Region) {
    forall k :: 0 <= k < |r.chunks| ==> r.chunks[k].addr in minors && minors[r.chunks[k].addr] == MinorOf(r, k)
  }

  /** Both lists are linked in both directions and every field says what the shape says. */
  predicate Represents(majors: map<nat, Major>, minors: map<nat, Minor>, shape: Shape) {
    MajorsOf(majors, shape) && forall j :: 0 <= j < |shape| ==> MinorsOf(minors, shape[j])
  }

  /** Linking a new struct m at address a between two neighbours, either of which may be NULL. */
  function Spliced(minors: map<nat, Minor>, a: nat, m: Minor): map<nat, Minor>
    requires m.prev != 0 ==> m.prev in minors
    requires m.next != 0 ==> m.next in minors
  {
    var m1 := minors[a := m];
    var m2 := if m.prev != 0 && m.prev in m1 then m1[m.prev := m1[m.prev].(next := a)] else m1;
    if m.next != 0 && m.next in m2 then m2[m.next := m2[m.next].(prev := a)] else m2
  }

  lemma SplicedAt(minors: map<nat, Minor>, a: nat, m: Minor, x: nat)
    requires (m.prev != 0 ==> m.prev in minors) && (m.next != 0 ==> m.next in minors)
    requires a != m.prev && a != m.next && (m.prev != m.next || m.prev == 0) && x > 0 && (x == a || x in minors)
    ensures x in Spliced(minors, a, m)
    ensures Spliced(minors, a, m)[x] ==
      if x == a then m else if x == m.prev then minors[x].(next := a) else if x == m.next then minors[x].(prev := a) else minors[x]
  {
  }

  function NewMinor(r: Region, k: nat, c: Chunk): Minor {
    Minor(ChunkAddr(r, k - 1), ChunkAddr(r, k), r.addr, MAGIC, c.size, c.req)
  }

  /** Chunk c goes into gap k of r, at its low end. */
  predicate CanInsert(minors: map<nat, Minor>, r: Region, k: nat, c: Chunk) {
    && MinorsOf(minors, r) && Packed(r) && r.addr > 0 && k <= |r.chunks|
    && c.addr == Lo(r, k) && End(c) <= Hi(r, k)
  }

  lemma NewNeighbours(minors: map<nat, Minor>, r: Region, k: nat, c: Chunk)
    requires CanInsert(minors, r, k, c)
    ensures var m := NewMinor(r, k, c);
      && (m.prev != 0 ==> m.prev in minors) && (m.next != 0 ==> m.next in minors)
      && c.addr != m.prev && c.addr != m.next && (m.prev != m.next || m.prev == 0)
  {
    ChunkAddrsDistinct(r);
    assert k > 0 ==> r.chunks[k - 1].addr in minors;
    assert k < |r.chunks| ==> r.chunks[k].addr in minors;
    OldChunksElsewhere(r, k, c);
  }

  lemma ChunkAddrsDistinct(r: Region)
    requires Packed(r) && r.addr > 0
    ensures forall i :: 0 <= i < |r.chunks| ==> r.chunks[i].addr > 0
    ensures forall i, k :: 0 <= i < k < |r.chunks| ==> r.chunks[i].addr != r.chunks[k].addr
  {
    hide Packed;
    forall i | 0 <= i < |r.chunks| ensures r.chunks[i].addr > 0 {
      ChunkInside(r, i);
    }
    forall i, k | 0 <= i < k < |r.chunks| ensures r.chunks[i].addr != r.chunks[k].addr {
      ChunkOrder(r, i, k);
    }
  }

  lemma OldChunksElsewhere(r: Region, k: nat, c: Chunk)
    requires Packed(r) && r.addr > 0 && k <= |r.chunks| && c.addr == Lo(r, k) && End(c) <= Hi(r, k)
    ensures c.addr > 0
    ensures forall i :: 0 <= i < |r.chunks| ==> r.chunks[i].addr != c.addr
  {
    hide Packed;
    forall i | 0 <= i < |r.chunks| ensures r.chunks[i].addr != c.addr {
      if i < k { ChunkOrder(r, i, k); } else if k < i { ChunkOrder(r, k, i); }
    }
    if k > 0 { ChunkInside(r, k - 1); }
  }

  lemma InsertedMinorOf(r: Region, k: nat, c: Chunk, i: nat)
    requires k <= |r.chunks| && i <= |r.chunks|
    ensures var n := MinorOf(Inserted(r, k, c), i);
      if i == k then n == NewMinor(r, k, c)
      else
        var o := if i < k then i else i - 1;
        && Inserted(r, k, c).chunks[i] == r.chunks[o]
        && n == if o == k - 1 then MinorOf(r, o).(next := c.addr)
                else if o == k then MinorOf(r, o).(prev := c.addr) else MinorOf(r, o)
  {
  }

  lemma SplicedOld(minors: map<nat, Minor>, r: Region, k: nat, c: Chunk, o: nat)
    requires CanInsert(minors, r, k, c) && o < |r.chunks|
    requires var m := NewMinor(r, k, c); (m.prev != 0 ==> m.prev in minors) && (m.next != 0 ==> m.next in minors)
    ensures var minors', a := Spliced(minors, c.addr, NewMinor(r, k, c)), r.chunks[o].addr;
      && a in minors'
      && minors'[a] == if o == k - 1 then MinorOf(r, o).(next := c.addr)
                       else if o == k then MinorOf(r, o).(prev := c.addr) else MinorOf(r, o)
  {
    hide Packed, Spliced;
    NewNeighbours(minors, r, k, c);
    ChunkAddrsDistinct(r);
    OldChunksElsewhere(r, k, c);
    assert r.chunks[o].addr in minors && minors[r.chunks[o].addr] == MinorOf(r, o);
    hide MinorsOf, MinorOf;
    SplicedAt(minors, c.addr, NewMinor(r, k, c), r.chunks[o].addr);
  }

  lemma SplicedMinor(minors: map<nat, Minor>, r: Region, k: nat, c: Chunk, i: nat)
    requires CanInsert(minors, r, k, c) && i <= |r.chunks|
    requires var m := NewMinor(r, k, c); (m.prev != 0 ==> m.prev in minors) && (m.next != 0 ==> m.next in minors)
    ensures var r', minors' := Inserted(r, k, c), Spliced(minors, c.addr, NewMinor(r, k, c));
      r'.chunks[i].addr in minors' && minors'[r'.chunks[i].addr] == MinorOf(r', i)
  {
    hide Packed, Spliced, MinorOf, NewMinor, MinorsOf;
    InsertedMinorOf(r, k, c, i);
    if i == k {
      NewNeighbours(minors, r, k, c);
      OldChunksElsewhere(r, k, c);
      SplicedAt(minors, c.addr, NewMinor(r, k, c), c.addr);
    } else {
      SplicedOld(minors, r, k, c, if i < k then i else i - 1);
    }
  }

  lemma SplicedMinors(minors: map<nat, Minor>, r: Region, k: nat, c: Chunk)
    requires CanInsert(minors, r, k, c)
    ensures var m := NewMinor(r, k, c);
      && (m.prev != 0 ==> m.prev in minors) && (m.next != 0 ==> m.next in minors)
      && MinorsOf(Spliced(minors, c.addr, m), Inserted(r, k, c))
  {
    hide Packed, Spliced, NewMinor;
    NewNeighbours(minors, r, k, c);
    var minors', r' := Spliced(minors, c.addr, NewMinor(r, k, c)), Inserted(r, k, c);
    forall i | 0 <= i < |r'.chunks| ensures r'.chunks[i].addr in minors' && minors'[r'.chunks[i].addr] == MinorOf(r', i) {
      SplicedMinor(minors, r, k, c, i);
    }
  }

  lemma SplicedElsewhere(minors: map<nat, Minor>, r: Region, k: nat, c: Chunk, s: Region)
    requires CanInsert(minors, r, k, c)
    requires MinorsOf(minors, s) && Packed(s) && s.addr > 0 && Apart(r, s)
    ensures var m := NewMinor(r, k, c);
      && (m.prev != 0 ==> m.prev in minors) && (m.next != 0 ==> m.next in minors)
      && MinorsOf(Spliced(minors, c.addr, m), s)
  {
    hide Packed, Spliced;
    NewNeighbours(minors, r, k, c);
    InsertedInside(r, k, c);
    var minors' := Spliced(minors, c.addr, NewMinor(r, k, c));
    forall l | 0 <= l < |s.chunks| ensures s.chunks[l].addr in minors' && minors'[s.chunks[l].addr] == MinorOf(s, l) {
      ChunkInside(s, l);
      assert s.chunks[l].addr in minors && minors[s.chunks[l].addr] == MinorOf(s, l);
      SplicedAt(minors, c.addr, NewMinor(r, k, c), s.chunks[l].addr);
    }
  }

  lemma InsertedInside(r: Region, k: nat, c: Chunk)
    requires Packed(r) && k <= |r.chunks| && c.addr == Lo(r, k) && End(c) <= Hi(r, k)
    ensures r.addr <= c.addr < Limit(r)
    ensures ChunkAddr(r, k - 1) == 0 || r.addr <= ChunkAddr(r, k - 1) < Limit(r)
    ensures ChunkAddr(r, k) == 0 || r.addr <= ChunkAddr(r, k) < Limit(r)
  {
    if k > 0 { ChunkInside(r, k - 1); }
    if k < |r.chunks| { ChunkInside(r, k); }
  }

  /** Unlinking the struct at address a from its neighbours and marking it dead. */
  function Unspliced(minors: map<nat, Minor>, a: nat): map<nat, Minor>
    requires a in minors
    requires minors[a].prev != 0 ==> minors[a].prev in minors
    requires minors[a].next != 0 ==> minors[a].next in minors
  {
    var m := minors[a];
    var m1 := minors[a := m.(magic := DEAD)];
    var m2 := if m.next != 0 && m.next in m1 then m1[m.next := m1[m.next].(prev := m.prev)] else m1;
    if m.prev != 0 && m.prev in m2 then m2[m.prev := m2[m.prev].(next := m.next)] else m2
  }

  lemma NeighboursKnown(minors: map<nat, Minor>, r: Region, k: nat)
    requires MinorsOf(minors, r) && k < |r.chunks|
    ensures var a := r.chunks[k].addr;
      && a in minors && minors[a] == MinorOf(r, k)
      && (minors[a].prev != 0 ==> minors[a].prev in minors)
      && (minors[a].next != 0 ==> minors[a].next in minors)
  {
    assert k > 0 ==> r.chunks[k - 1].addr in minors;
    assert k + 1 < |r.chunks| ==> r.chunks[k + 1].addr in minors;
  }

  lemma UnsplicedAt(minors: map<nat, Minor>, a: nat, x: nat)
    requires a in minors && x in minors && x > 0 && x != a
    requires (minors[a].prev != 0 ==> minors[a].prev in minors) && (minors[a].next != 0 ==> minors[a].next in minors)
    requires minors[a].prev != minors[a].next || minors[a].prev == 0
    ensures x in Unspliced(minors, a)
    ensures Unspliced(minors, a)[x] ==
      if x == minors[a].prev then minors[x].(next := minors[a].next)
      else if x == minors[a].next then minors[x].(prev := minors[a].prev) else minors[x]
  {
  }

  lemma RemovedMinorOf(r: Region, k: nat, o: nat)
    requires k < |r.chunks| && o < |r.chunks| && o != k
    ensures var i := if o < k then o else o - 1;
      && Removed(r, k).chunks[i] == r.chunks[o]
      && MinorOf(Removed(r, k), i) ==
         if o == k - 1 then MinorOf(r, o).(next := ChunkAddr(r, k + 1))
         else if o == k + 1 then MinorOf(r, o).(prev := ChunkAddr(r, k - 1)) else MinorOf(r, o)
  {
  }

  lemma WhichChunk(r: Region, k: nat, o: nat)
    requires Packed(r) && r.addr > 0 && k < |r.chunks| && o < |r.chunks| && o != k
    ensures r.chunks[o].addr > 0 && r.chunks[o].addr != r.chunks[k].addr
    ensures r.chunks[o].addr == ChunkAddr(r, k - 1) <==> o == k - 1
    ensures r.chunks[o].addr == ChunkAddr(r, k + 1) <==> o == k + 1
    ensures ChunkAddr(r, k - 1) != ChunkAddr(r, k + 1) || ChunkAddr(r, k - 1) == 0
  {
    hide Packed;
    ChunkAddrsDistinct(r);
  }

  lemma UnsplicedMinor(minors: map<nat, Minor>, r: Region, k: nat, o: nat)
    requires MinorsOf(minors, r) && Packed(r) && r.addr > 0 && k < |r.chunks| && o < |r.chunks| && o != k
    requires var a := r.chunks[k].addr;
      a in minors && (minors[a].prev != 0 ==> minors[a].prev in minors) && (minors[a].next != 0 ==> minors[a].next in minors)
    ensures var minors', a := Unspliced(minors, r.chunks[k].addr), r.chunks[o].addr;
      && a in minors'
      && minors'[a] == if o == k - 1 then MinorOf(r, o).(next := ChunkAddr(r, k + 1))
                       else if o == k + 1 then MinorOf(r, o).(prev := ChunkAddr(r, k - 1)) else MinorOf(r, o)
  {
    hide Packed, Unspliced;
    WhichChunk(r, k, o);
    NeighboursKnown(minors, r, k);
    assert r.chunks[o].addr in minors && minors[r.chunks[o].addr] == MinorOf(r, o);
    assert minors[r.chunks[k].addr].prev == ChunkAddr(r, k - 1) && minors[r.chunks[k].addr].next == ChunkAddr(r, k + 1);
    hide MinorsOf, MinorOf, ChunkAddr;
    UnsplicedAt(minors, r.chunks[k].addr, r.chunks[o].addr);
  }

  lemma UnsplicedMinors(minors: map<nat, Minor>, r: Region, k: nat)
    requires MinorsOf(minors, r) && Packed(r) && r.addr > 0 && k < |r.chunks|
    ensures var a := r.chunks[k].addr;
      && a in minors
      && (minors[a].prev != 0 ==> minors[a].prev in minors)
      && (minors[a].next != 0 ==> minors[a].next in minors)
      && MinorsOf(Unspliced(minors, a), Removed(r, k))
  {
    hide Packed, Unspliced, MinorOf;
    NeighboursKnown(minors, r, k);
    var minors', r' := Unspliced(minors, r.chunks[k].addr), Removed(r, k);
    forall i | 0 <= i < |r'.chunks| ensures r'.chunks[i].addr in minors' && minors'[r'.chunks[i].addr] == MinorOf(r', i) {
      var o := if i < k then i else i + 1;
      RemovedMinorOf(r, k, o);
      UnsplicedMinor(minors, r, k, o);
    }
  }

  lemma UnsplicedElsewhere(minors: map<nat, Minor>, r: Region, k: nat, s: Region)
    requires MinorsOf(minors, r) && Packed(r) && r.addr > 0 && k < |r.chunks|
    requires MinorsOf(minors, s) && Packed(s) && Apart(r, s)
    ensures var a := r.chunks[k].addr;
      && a in minors
      && (minors[a].prev != 0 ==> minors[a].prev in minors)
      && (minors[a].next != 0 ==> minors[a].next in minors)
      && MinorsOf(Unspliced(minors, a), s)
  {
    var a := r.chunks[k].addr;
    NeighboursKnown(minors, r, k);
    ChunkInside(r, k);
    if k > 0 { ChunkInside(r, k - 1); }
    if k + 1 < |r.chunks| { ChunkInside(r, k + 1); }
    var minors' := Unspliced(minors, a);
    forall l | 0 <= l < |s.chunks| ensures s.chunks[l].addr in minors' && minors'[s.chunks[l].addr] == MinorOf(s, l) {
      ChunkInside(s, l);
    }
  }

  // ----- whole heaps -----

  function TotalPayload(shape: Shape): nat {
    if shape == [] then 0 else TotalPayload(shape[..|shape| - 1]) + Payload(shape[|shape| - 1].chunks)
  }

  function TotalSize(shape: Shape): nat {
    if shape == [] then 0 else TotalSize(shape[..|shape| - 1]) + shape[|shape| - 1].pages * PAGE
  }

  lemma {:induction false} TotalsAppend(a: Shape, b: Shape)
    ensures TotalPayload(a + b) == TotalPayload(a) + TotalPayload(b)
    ensures TotalSize(a + b) == TotalSize(a) + TotalSize(b)
    decreases |b|
  {
    if b == [] {
      assert a + b == a;
    } else {
      assert (a + b)[..|a + b| - 1] == a + b[..|b| - 1];
      TotalsAppend(a, b[..|b| - 1]);
    }
  }

  lemma TotalsSplit(shape: Shape, j: nat)
    requires j < |shape|
    ensures TotalPayload(shape) == TotalPayload(shape[..j]) + Payload(shape[j].chunks) + TotalPayload(shape[j + 1..])
    ensures TotalSize(shape) == TotalSize(shape[..j]) + shape[j].pages * PAGE + TotalSize(shape[j + 1..])
  {
    assert shape == shape[..j] + [shape[j]] + shape[j + 1..];
    TotalsAppend(shape[..j] + [shape[j]], shape[j + 1..]);
    TotalsAppend(shape[..j], [shape[j]]);
    assert [shape[j]][..0] == [];
  }

  lemma TotalsUpdate(shape: Shape, j: nat, r: Region)
    requires j < |shape| && r.pages == shape[j].pages
    ensures TotalPayload(shape[j := r]) + Payload(shape[j].chunks) == TotalPayload(shape) + Payload(r.chunks)
    ensures TotalSize(shape[j := r]) == TotalSize(shape)
  {
    TotalsSplit(shape, j);
    TotalsSplit(shape[j := r], j);
    assert shape[j := r][..j] == shape[..j] && shape[j := r][j + 1..] == shape[j + 1..];
  }

  function Without(shape: Shape, j: nat): Shape
    requires j < |shape|
  {
    shape[..j] + shape[j + 1..]
  }

  lemma TotalsWithout(shape: Shape, j: nat)
    requires j < |shape|
    ensures TotalPayload(Without(shape, j)) + Payload(shape[j].chunks) == TotalPayload(shape)
    ensures TotalSize(Without(shape, j)) + shape[j].pages * PAGE == TotalSize(shape)
  {
    TotalsSplit(shape, j);
    TotalsAppend(shape[..j], shape[j + 1..]);
  }

  /** Replacing a region by one with the same pages but other chunks. */
  lemma UpdatedShapeOk(shape: Shape, j: nat, r: Region)
    requires ShapeOk(shape) && j < |shape| && RegionOk(r) && r.addr == shape[j].addr && r.pages == shape[j].pages
    ensures ShapeOk(shape[j := r])
  {
    var shape' := shape[j := r];
    forall i, l | 0 <= i < l < |shape| ensures Apart(shape'[i], shape'[l]) {
      assert Apart(shape[i], shape[l]);
    }
  }

  lemma UpdatedMajors(majors: map<nat, Major>, shape: Shape, j: nat, r: Region)
    requires MajorsOf(majors, shape) && ShapeOk(shape)
    requires j < |shape| && r.addr == shape[j].addr && r.pages == shape[j].pages
    ensures r.addr in majors
    ensures MajorsOf(majors[r.addr := majors[r.addr].(usage := Usage(r), first := ChunkAddr(r, 0))], shape[j := r])
  {
    hide ShapeOk, Usage;
    assert shape[j].addr in majors;
    var majors' := majors[r.addr := majors[r.addr].(usage := Usage(r), first := ChunkAddr(r, 0))];
    var shape' := shape[j := r];
    forall i | 0 <= i < |shape'| ensures shape'[i].addr in majors' && majors'[shape'[i].addr] == MajorOf(shape', i) {
      assert shape[i].addr in majors && majors[shape[i].addr] == MajorOf(shape, i);
      if i != j { RegionAddrsDiffer(shape, i, j); }
    }
  }

  /** Linking a new struct at the end of the list of majors. */
  function MajorsWith(majors: map<nat, Major>, last: nat, a: nat, m: Major): map<nat, Major>
    requires last != 0 ==> last in majors
  {
    if last == 0 then majors[a := m] else majors[a := m][last := majors[last].(next := a)]
  }

  lemma AppendedMajorOf(shape: Shape, r: Region, i: nat)
    requires i <= |shape|
    ensures var n := MajorOf(shape + [r], i);
      if i == |shape| then n == Major(AddrAt(shape, i - 1), 0, r.pages, r.pages * PAGE, Usage(r), ChunkAddr(r, 0))
      else n == if i == |shape| - 1 then MajorOf(shape, i).(next := r.addr) else MajorOf(shape, i)
  {
    hide Usage;
  }

  lemma AppendedMajors(majors: map<nat, Major>, shape: Shape, r: Region)
    requires MajorsOf(majors, shape) && ShapeOk(shape + [r])
    ensures var last := AddrAt(shape, |shape| - 1);
      && (last != 0 ==> last in majors)
      && MajorsOf(MajorsWith(majors, last, r.addr, Major(last, 0, r.pages, r.pages * PAGE, Usage(r), ChunkAddr(r, 0))), shape + [r])
  {
    hide ShapeOk, Usage, MajorOf;
    var shape', last := shape + [r], AddrAt(shape, |shape| - 1);
    RegionAddrsDistinct(shape');
    RegionAddrsPositive(shape');
    assert shape != [] ==> shape'[|shape| - 1] == shape[|shape| - 1] && shape[|shape| - 1].addr in majors;
    var majors' := MajorsWith(majors, last, r.addr, Major(last, 0, r.pages, r.pages * PAGE, Usage(r), ChunkAddr(r, 0)));
    forall i | 0 <= i < |shape'| ensures shape'[i].addr in majors' && majors'[shape'[i].addr] == MajorOf(shape', i) {
      AppendedMajorOf(shape, r, i);
      if i < |shape| {
        assert shape'[i] == shape[i];
        assert shape[i].addr in majors && majors[shape[i].addr] == MajorOf(shape, i) && shape'[i].addr != shape'[|shape|].addr;
      }
    }
  }

  /** Unlinking the struct at address a from the list of majors. */
  function MajorsWithout(majors: map<nat, Major>, a: nat): map<nat, Major>
    requires a in majors
  {
    var m := majors[a];
    var m1 := if m.prev != 0 && m.prev in majors then majors[m.prev := majors[m.prev].(next := m.next)] else majors;
    if m.next != 0 && m.next in m1 then m1[m.next := m1[m.next].(prev := m.prev)] else m1
  }

  lemma MajorsWithoutAt(majors: map<nat, Major>, a: nat, x: nat)
    requires a in majors && x in majors && x > 0
    requires majors[a].prev != majors[a].next || majors[a].prev == 0
    ensures x in MajorsWithout(majors, a)
    ensures MajorsWithout(majors, a)[x] ==
      if x == majors[a].prev then majors[x].(next := majors[a].next)
      else if x == majors[a].next then majors[x].(prev := majors[a].prev) else majors[x]
  {
  }

  lemma WhichRegion(shape: Shape, j: nat, o: nat)
    requires ShapeOk(shape) && j < |shape| && o < |shape| && o != j
    ensures shape[o].addr > 0 && shape[o].addr != shape[j].addr
    ensures shape[o].addr == AddrAt(shape, j - 1) <==> o == j - 1
    ensures shape[o].addr == AddrAt(shape, j + 1) <==> o == j + 1
    ensures AddrAt(shape, j - 1) != AddrAt(shape, j + 1) || AddrAt(shape, j - 1) == 0
  {
    hide ShapeOk;
    RegionAddrsPositive(shape);
    RegionAddrsDistinct(shape);
  }

  lemma MajorAfterRemoval(majors: map<nat, Major>, shape: Shape, j: nat, o: nat)
    requires MajorsOf(majors, shape) && ShapeOk(shape) && j < |shape| && o < |shape| && o != j
    ensures shape[j].addr in majors && shape[o].addr in majors
    ensures var majors', m := MajorsWithout(majors, shape[j].addr), majors[shape[o].addr];
      && shape[o].addr in majors'
      && majors'[shape[o].addr] == if o == j - 1 then m.(next := AddrAt(shape, j + 1))
                                   else if o == j + 1 then m.(prev := AddrAt(shape, j - 1)) else m
  {
    hide ShapeOk, Usage, MajorsWithout;
    assert shape[o].addr in majors;
    assert shape[j].addr in majors && majors[shape[j].addr] == MajorOf(shape, j);
    hide MajorsOf;
    WhichRegion(shape, j, o);
    assert majors[shape[j].addr].prev == AddrAt(shape, j - 1) && majors[shape[j].addr].next == AddrAt(shape, j + 1);
    hide MajorOf, AddrAt;
    MajorsWithoutAt(majors, shape[j].addr, shape[o].addr);
  }

  lemma WithoutMajorOf(shape: Shape, j: nat, o: nat)
    requires j < |shape| && o < |shape| && o != j
    ensures var i := if o < j then o else o - 1;
      && Without(shape, j)[i] == shape[o]
      && MajorOf(Without(shape, j), i) ==
         if o == j - 1 then MajorOf(shape, o).(next := AddrAt(shape, j + 1))
         else if o == j + 1 then MajorOf(shape, o).(prev := AddrAt(shape, j - 1)) else MajorOf(shape, o)
  {
    hide Usage;
  }

  lemma MajorsAfterRemoval(majors: map<nat, Major>, shape: Shape, j: nat)
    requires MajorsOf(majors, shape) && ShapeOk(shape) && j < |shape|
    ensures shape[j].addr in majors && MajorsOf(MajorsWithout(majors, shape[j].addr), Without(shape, j))
  {
    hide ShapeOk, MajorsWithout, MajorOf;
    assert shape[j].addr in majors;
    var majors', shape' := MajorsWithout(majors, shape[j].addr), Without(shape, j);
    forall i | 0 <= i < |shape'| ensures shape'[i].addr in majors' && majors'[shape'[i].addr] == MajorOf(shape', i) {
      var o := if i < j then i else i + 1;
      assert majors[shape[o].addr] == MajorOf(shape, o);
      WithoutMajorOf(shape, j, o);
      MajorAfterRemoval(majors, shape, j, o);
    }
  }

  lemma WithoutShapeOk(shape: Shape, j: nat)
    requires ShapeOk(shape) && j < |shape|
    ensures ShapeOk(Without(shape, j))
  {
    var shape' := Without(shape, j);
    forall i, l | 0 <= i < l < |shape'| ensures Apart(shape'[i], shape'[l]) {
      var i', l' := if i < j then i else i + 1, if l < j then l else l + 1;
      assert Apart(shape[i'], shape[l']);
    }
  }

  // ----- the chunks of a heap -----

  ghost function Chunks(shape: Shape): set<Chunk> {
    set j, k | 0 <= j < |shape| && 0 <= k < |shape[j].chunks| :: shape[j].chunks[k]
  }

  lemma InsertedShape(majors: map<nat, Major>, minors: map<nat, Minor>, shape: Shape, j: nat, k: nat, c: Chunk)
    requires ShapeOk(shape) && Represents(majors, minors, shape) && j < |shape| && k <= |shape[j].chunks|
    requires c.addr == Lo(shape[j], k) && End(c) <= Hi(shape[j], k) && c.req + 32 <= c.size
    ensures var r, m := Inserted(shape[j], k, c), NewMinor(shape[j], k, c);
      && ShapeOk(shape[j := r])
      && TotalPayload(shape[j := r]) == TotalPayload(shape) + c.size && TotalSize(shape[j := r]) == TotalSize(shape)
      && r.addr in majors && Usage(r) == majors[r.addr].usage + c.size + HEADER
      && (m.prev != 0 ==> m.prev in minors) && (m.next != 0 ==> m.next in minors)
      && Represents(majors[r.addr := majors[r.addr].(usage := Usage(r), first := ChunkAddr(r, 0))], Spliced(minors, c.addr, m), shape[j := r])
  {
    hide Packed, Spliced, MinorsOf, MajorsOf, Bytes, Payload, TotalPayload, TotalSize;
    var r, m := Inserted(shape[j], k, c), NewMinor(shape[j], k, c);
    assert RegionOk(shape[j]);
    InsertedPacked(shape[j], k, c);
    InsertedBytes(shape[j], k, c);
    UpdatedShapeOk(shape, j, r);
    TotalsUpdate(shape, j, r);
    UpdatedMajors(majors, shape, j, r);
    UsageRepresented(majors, shape, j);
    SplicedMinors(minors, shape[j], k, c);
    var minors', shape' := Spliced(minors, c.addr, m), shape[j := r];
    forall i | 0 <= i < |shape'| ensures MinorsOf(minors', shape'[i]) {
      if i != j {
        assert RegionOk(shape[i]) && MinorsOf(minors, shape[i]);
        assert Apart(shape[j], shape[i]) by { assert if i < j then Apart(shape[i], shape[j]) else Apart(shape[j], shape[i]); }
        SplicedElsewhere(minors, shape[j], k, c, shape[i]);
      }
    }
  }

  lemma UsageRepresented(majors: map<nat, Major>, shape: Shape, j: nat)
    requires MajorsOf(majors, shape) && j < |shape|
    ensures shape[j].addr in majors && majors[shape[j].addr] == MajorOf(shape, j)
  {
  }

  lemma RemovedShape(majors: map<nat, Major>, minors: map<nat, Minor>, shape: Shape, j: nat, k: nat)
    requires ShapeOk(shape) && Represents(majors, minors, shape) && j < |shape| && k < |shape[j].chunks|
    ensures var c, r := shape[j].chunks[k], Removed(shape[j], k);
      && ShapeOk(shape[j := r])
      && TotalPayload(shape[j := r]) + c.size == TotalPayload(shape) && TotalSize(shape[j := r]) == TotalSize(shape)
      && r.addr in majors && Usage(r) + c.size + HEADER == majors[r.addr].usage
      && c.addr in minors && minors[c.addr] == MinorOf(shape[j], k)
      && (minors[c.addr].prev != 0 ==> minors[c.addr].prev in minors)
      && (minors[c.addr].next != 0 ==> minors[c.addr].next in minors)
      && Represents(majors[r.addr := majors[r.addr].(usage := Usage(r), first := ChunkAddr(r, 0))], Unspliced(minors, c.addr), shape[j := r])
  {
    hide Packed, Unspliced, MinorsOf, MajorsOf, Bytes, Payload, TotalPayload, TotalSize;
    var c, r := shape[j].chunks[k], Removed(shape[j], k);
    assert RegionOk(shape[j]);
    RemovedPacked(shape[j], k);
    RemovedBytes(shape[j], k);
    UpdatedShapeOk(shape, j, r);
    TotalsUpdate(shape, j, r);
    UpdatedMajors(majors, shape, j, r);
    UsageRepresented(majors, shape, j);
    NeighboursKnown(minors, shape[j], k);
    UnsplicedMinors(minors, shape[j], k);
    var minors', shape' := Unspliced(minors, c.addr), shape[j := r];
    forall i | 0 <= i < |shape'| ensures MinorsOf(minors', shape'[i]) {
      if i != j {
        assert RegionOk(shape[i]) && MinorsOf(minors, shape[i]);
        assert Apart(shape[j], shape[i]) by { assert if i < j then Apart(shape[i], shape[j]) else Apart(shape[j], shape[i]); }
        UnsplicedElsewhere(minors, shape[j], k, shape[i]);
      }
    }
  }

  lemma ChunksInserted(shape: Shape, j: nat, k: nat, c: Chunk)
    requires ShapeOk(shape) && j < |shape| && k <= |shape[j].chunks|
    ensures Chunks(shape[j := Inserted(shape[j], k, c)]) == Chunks(shape) + {c}
  {
    hide ShapeOk;
    var r := Inserted(shape[j], k, c);
    var shape' := shape[j := r];
    forall d | d in Chunks(shape') ensures d in Chunks(shape) + {c} {
      var i, l :| 0 <= i < |shape'| && 0 <= l < |shape'[i].chunks| && shape'[i].chunks[l] == d;
      if i == j && l != k {
        assert d == shape[j].chunks[if l < k then l else l - 1];
      }
    }
    forall d | d in Chunks(shape) + {c} ensures d in Chunks(shape') {
      if d in Chunks(shape) {
        var i, l :| 0 <= i < |shape| && 0 <= l < |shape[i].chunks| && shape[i].chunks[l] == d;
        assert i != j ==> shape'[i].chunks[l] == d;
        assert i == j ==> shape'[j].chunks[if l < k then l else l + 1] == d;
      } else {
        assert shape'[j].chunks[k] == c;
      }
    }
  }

  lemma ChunksRemoved(shape: Shape, j: nat, k: nat)
    requires ShapeOk(shape) && j < |shape| && k < |shape[j].chunks|
    ensures Chunks(shape[j := Removed(shape[j], k)]) == Chunks(shape) - {shape[j].chunks[k]}
  {
    hide ShapeOk;
    var c, r := shape[j].chunks[k], Removed(shape[j], k);
    var shape' := shape[j := r];
    forall d | d in Chunks(shape') ensures d in Chunks(shape) && d != c {
      var i, l :| 0 <= i < |shape'| && 0 <= l < |shape'[i].chunks| && shape'[i].chunks[l] == d;
      var o := if i == j && l >= k then l + 1 else l;
      assert d == shape[i].chunks[o];
      ChunksApart(shape, i, o, j, k);
    }
    forall d | d in Chunks(shape) && d != c ensures d in Chunks(shape') {
      var i, l :| 0 <= i < |shape| && 0 <= l < |shape[i].chunks| && shape[i].chunks[l] == d;
      assert i != j ==> shape'[i].chunks[l] == d;
      assert i == j ==> shape'[j].chunks[if l < k then l else l - 1] == d;
    }
  }
}

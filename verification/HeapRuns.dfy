/** Any run of kmalloc, kfree, krealloc and writes through the pointers they gave, as operations on
    independent buffers. */
module HeapRuns {
  import opened Common
  import opened FirstFit
  import opened HeapShape
  import opened LibAlloc
  import HeapPages

  /** Buffers are named by their place among the live ones. */
  datatype HeapOp = Malloc(size: nat) | Free(i: nat) | Realloc(i: nat, size: nat) | Write(i: nat, offset: nat, b: byte)

  /** What the program knows of a buffer: None for a byte it has not written. */
  type Buffer = seq<Option<byte>>

  function Unknown(n: nat): Buffer {
    seq(n, _ => None)
  }

  function Resized(buffer: Buffer, n: nat): (r: Buffer)
    ensures |r| == n
  {
    if n <= |buffer| then buffer[..n] else buffer + Unknown(n - |buffer|)
  }

  function Dropped<T>(s: seq<T>, i: nat): seq<T>
    requires i < |s|
  {
    s[..i] + s[i + 1..]
  }

  /** The operation names a live buffer, a byte inside it, and a size that 32 bits can count. */
  predicate Legal(op: HeapOp, buffers: seq<Buffer>) {
    match op
    case Malloc(size) => Small(size)
    case Free(i) => i < |buffers|
    case Realloc(i, size) => i < |buffers| && Small(size)
    case Write(i, offset, _) => i < |buffers| && offset < |buffers[i]|
  }

  predicate Small(size: nat) {
    size + 112 + 4095 < 0x1_0000_0000
  }

  /** The meaning of an operation when buffers are simply independent. */
  function Effect(op: HeapOp, buffers: seq<Buffer>): seq<Buffer>
    requires Legal(op, buffers)
  {
    match op
    case Malloc(size) => buffers + [Unknown(size)]
    case Free(i) => Dropped(buffers, i)
    case Realloc(i, size) => if size == 0 then Dropped(buffers, i) else buffers[i := Resized(buffers[i], size)]
    case Write(i, offset, b) => buffers[i := buffers[i][offset := Some(b)]]
  }

  predicate AllLegal(ops: seq<HeapOp>, buffers: seq<Buffer>) {
    ops != [] ==> Legal(ops[0], buffers) && AllLegal(ops[1..], Effect(ops[0], buffers))
  }

  function Meaning(ops: seq<HeapOp>, buffers: seq<Buffer>): seq<Buffer>
    requires AllLegal(ops, buffers)
  {
    if ops == [] then buffers else Meaning(ops[1..], Effect(ops[0], buffers))
  }

  // ----- buffers and chunks -----

  ghost predicate Keeps(bytes: seq<byte>, c: Chunk, buffer: Buffer) {
    && HEAP <= Pointer(c) && Pointer(c) - HEAP + c.req <= |bytes| && c.req == |buffer|
    && forall j :: 0 <= j < |buffer| && buffer[j].Some? ==> Data(bytes, c)[j] == buffer[j].value
  }

  ghost predicate Distinct(cs: seq<Chunk>) {
    forall i, j :: 0 <= i < j < |cs| ==> cs[i] != cs[j]
  }

  /** The live chunks are those of the pointers, one each, and hold what the program wrote. */
  ghost predicate Matches(shape: Shape, bytes: seq<byte>, ptrs: seq<nat>, cs: seq<Chunk>, buffers: seq<Buffer>) {
    && |ptrs| == |cs| == |buffers| && Distinct(cs)
    && (forall c :: c in Chunks(shape) <==> c in cs)
    && (forall i :: 0 <= i < |cs| ==> ptrs[i] == Pointer(cs[i]) && Keeps(bytes, cs[i], buffers[i]))
  }

  lemma SameDataKeeps(bytes: seq<byte>, bytes': seq<byte>, c: Chunk, buffer: Buffer)
    requires Keeps(bytes, c, buffer) && |bytes'| == |bytes| && Data(bytes', c) == Data(bytes, c)
    ensures Keeps(bytes', c, buffer)
  {
    hide Data, Pointer;
  }

  lemma MallocMatches(shape: Shape, bytes: seq<byte>, shape': Shape, bytes': seq<byte>, ptrs: seq<nat>, cs: seq<Chunk>, buffers: seq<Buffer>, c: Chunk)
    requires Matches(shape, bytes, ptrs, cs, buffers) && Allocated(shape, bytes, shape', bytes', c)
    requires HEAP <= Pointer(c) && Pointer(c) - HEAP + c.req <= |bytes'|
    ensures Matches(shape', bytes', ptrs + [Pointer(c)], cs + [c], buffers + [Unknown(c.req)])
  {
    hide Chunks, Data, Pointer;
    var cs' := cs + [c];
    forall i | 0 <= i < |cs| ensures Keeps(bytes', cs[i], buffers[i]) {
      assert cs[i] in Chunks(shape);
      SameDataKeeps(bytes, bytes', cs[i], buffers[i]);
    }
    forall x ensures x in Chunks(shape') <==> x in cs' {
    }
    assert c !in cs;
  }

  lemma DroppedMembers(cs: seq<Chunk>, i: nat)
    requires i < |cs| && Distinct(cs)
    ensures Distinct(Dropped(cs, i)) && forall x :: x in Dropped(cs, i) <==> x in cs && x != cs[i]
  {
    var rest := Dropped(cs, i);
    forall x | x in cs && x != cs[i] ensures x in rest {
      var j :| 0 <= j < |cs| && cs[j] == x;
      assert rest[if j < i then j else j - 1] == x;
    }
  }

  lemma FreeMatches(shape: Shape, bytes: seq<byte>, shape': Shape, ptrs: seq<nat>, cs: seq<Chunk>, buffers: seq<Buffer>, i: nat)
    requires Matches(shape, bytes, ptrs, cs, buffers) && i < |cs| && Chunks(shape') == Chunks(shape) - {cs[i]}
    ensures Matches(shape', bytes, Dropped(ptrs, i), Dropped(cs, i), Dropped(buffers, i))
  {
    hide Chunks, Data, Pointer, Keeps;
    DroppedMembers(cs, i);
  }

  lemma UpdatedMembers(cs: seq<Chunk>, i: nat, d: Chunk)
    requires i < |cs| && Distinct(cs) && (d in cs ==> d == cs[i])
    ensures Distinct(cs[i := d]) && forall x :: x in cs[i := d] <==> (x in cs && x != cs[i]) || x == d
  {
    var cs' := cs[i := d];
    assert cs'[i] == d;
    forall x | x in cs && x != cs[i] ensures x in cs' {
      var j :| 0 <= j < |cs| && cs[j] == x;
      assert cs'[j] == x;
    }
  }

  lemma ReallocMatches(shape: Shape, bytes: seq<byte>, shape': Shape, bytes': seq<byte>, ptrs: seq<nat>, cs: seq<Chunk>, buffers: seq<Buffer>, i: nat, d: Chunk)
    requires Matches(shape, bytes, ptrs, cs, buffers) && i < |cs|
    requires Chunks(shape') == Chunks(shape) - {cs[i]} + {d} && d !in Chunks(shape) - {cs[i]}
    requires OthersSame(shape, cs[i], bytes, bytes') && Keeps(bytes', d, Resized(buffers[i], d.req))
    ensures Matches(shape', bytes', ptrs[i := Pointer(d)], cs[i := d], buffers[i := Resized(buffers[i], d.req)])
  {
    hide Chunks, Data, Pointer, Keeps, Resized, Distinct, OthersSame;
    var ptrs', cs', buffers' := ptrs[i := Pointer(d)], cs[i := d], buffers[i := Resized(buffers[i], d.req)];
    UpdatedMembers(cs, i, d);
    forall j | 0 <= j < |cs'| ensures ptrs'[j] == Pointer(cs'[j]) && Keeps(bytes', cs'[j], buffers'[j]) {
      if j != i { OtherKeeps(shape, bytes, bytes', ptrs, cs, buffers, i, j); }
    }
    forall c ensures c in Chunks(shape') <==> c in cs' {
      assert c in cs' <==> (c in cs && c != cs[i]) || c == d;
      assert c in Chunks(shape) <==> c in cs;
    }
  }

  /** What another chunk keeps when only cs[i] was written. */
  lemma OtherKeeps(shape: Shape, bytes: seq<byte>, bytes': seq<byte>, ptrs: seq<nat>, cs: seq<Chunk>, buffers: seq<Buffer>, i: nat, j: nat)
    requires Matches(shape, bytes, ptrs, cs, buffers) && i < |cs| && j < |cs| && i != j && OthersSame(shape, cs[i], bytes, bytes')
    ensures Keeps(bytes', cs[j], buffers[j])
  {
    hide Chunks, Data, Pointer, Keeps;
    assert cs[j] in Chunks(shape) && cs[j] != cs[i];
    assert Keeps(bytes, cs[j], buffers[j]);
    SameDataKeeps(bytes, bytes', cs[j], buffers[j]);
  }

  lemma PrefixKeeps(bytes: seq<byte>, c: Chunk, bytes': seq<byte>, d: Chunk, buffer: Buffer)
    requires Keeps(bytes, c, buffer) && SamePrefix(bytes, c, bytes', d)
    ensures Keeps(bytes', d, Resized(buffer, d.req))
  {
    hide Pointer;
    var n, r := if c.req <= d.req then c.req else d.req, Resized(buffer, d.req);
    forall j | 0 <= j < |r| && r[j].Some? ensures Data(bytes', d)[j] == r[j].value {
      assert j < n;
      assert Data(bytes', d)[..n][j] == Data(bytes, c)[..n][j];
    }
  }

  lemma WriteMatches(shape: Shape, bytes: seq<byte>, bytes': seq<byte>, ptrs: seq<nat>, cs: seq<Chunk>, buffers: seq<Buffer>, i: nat, offset: nat, b: byte)
    requires Matches(shape, bytes, ptrs, cs, buffers) && i < |cs| && offset < |buffers[i]|
    requires OthersSame(shape, cs[i], bytes, bytes')
    requires OneByte(bytes, bytes', cs[i], offset, b)
    ensures Matches(shape, bytes', ptrs, cs, buffers[i := buffers[i][offset := Some(b)]])
  {
    hide Chunks, Pointer;
    assert Keeps(bytes, cs[i], buffers[i]);
    assert Keeps(bytes', cs[i], buffers[i][offset := Some(b)]);
    forall j | 0 <= j < |cs| && j != i ensures Keeps(bytes', cs[j], buffers[j]) {
      OtherKeeps(shape, bytes, bytes', ptrs, cs, buffers, i, j);
    }
  }

  lemma MatchAt(shape: Shape, bytes: seq<byte>, ptrs: seq<nat>, cs: seq<Chunk>, buffers: seq<Buffer>, i: nat)
    requires Matches(shape, bytes, ptrs, cs, buffers) && i < |buffers|
    ensures |ptrs| == |cs| == |buffers| && cs[i] in Chunks(shape) && ptrs[i] == Pointer(cs[i]) && Keeps(bytes, cs[i], buffers[i])
    ensures cs[i].req == |buffers[i]|
  {
  }

  // ----- running -----

  /** The frames ran out, or no run of heap pages is long enough for a block of this request. */
  ghost predicate Exhausted(heap: Heap, op: HeapOp)
    reads heap.hook, heap.hook.mmu, heap.hook.mmu.frames.bytes, heap.hook.physicalPages
  {
    && (op.Malloc? || op.Realloc?)
    && (|| heap.hook.mmu.OutOfFrames()
        || NoRun(HeapPages.FreeCells(heap.hook.physicalPages[..]), Anywhere(), 0, HeapPages.HEAP_PAGES, PagesNeeded(op.size + 32)))
  }

  lemma PlaceOf(heap: Heap, c: Chunk)
    requires heap.Consistent() && c in Chunks(heap.shape)
    ensures HEAP <= Pointer(c) && Pointer(c) - HEAP + c.req <= |heap.bytes| == HEAP_BYTES && Pointer(c) != 0
  {
    DataInside(heap.shape, heap.bytes, c);
  }

  method Step(heap: Heap, op: HeapOp, ptrs: seq<nat>, ghost cs: seq<Chunk>, ghost buffers: seq<Buffer>)
      returns (ok: bool, ptrs': seq<nat>, ghost cs': seq<Chunk>)
    requires heap.Valid() && Legal(op, buffers) && Matches(heap.shape, heap.bytes, ptrs, cs, buffers)
    modifies heap, heap.hook.mmu`memory, heap.hook.mmu`tree, heap.hook.mmu.frames.bytes, heap.hook.physicalPages
    ensures ok ==> heap.Valid() && Matches(heap.shape, heap.bytes, ptrs', cs', Effect(op, buffers))
    ensures !ok ==> Exhausted(heap, op)
  {
    hide Matches, Allocated, OthersSame, SamePrefix, OneByte, Keeps, Heap.Consistent, NonEmpty, Chunks, NoRun, Pointer, Data;
    ghost var shape0, bytes0 := heap.shape, heap.bytes;
    ptrs', cs' := ptrs, cs;
    match op {
      case Malloc(size) =>
        var r;
        ghost var c;
        r, c := heap.Kmalloc(size);
        ok := r.At?;
        if ok {
          AllocatedIn(shape0, bytes0, heap.shape, heap.bytes, c);
          PlaceOf(heap, c);
          MallocMatches(shape0, bytes0, heap.shape, heap.bytes, ptrs, cs, buffers, c);
          ptrs', cs' := ptrs + [r.address], cs + [c];
        }
      case Free(i) =>
        MatchAt(shape0, bytes0, ptrs, cs, buffers, i);
        PlaceOf(heap, cs[i]);
        heap.Kfree(ptrs[i], cs[i]);
        FreeMatches(shape0, bytes0, heap.shape, ptrs, cs, buffers, i);
        ok, ptrs', cs' := true, Dropped(ptrs, i), Dropped(cs, i);
      case Realloc(i, size) =>
        MatchAt(shape0, bytes0, ptrs, cs, buffers, i);
        PlaceOf(heap, cs[i]);
        var r;
        ghost var d;
        r, d := heap.Krealloc(ptrs[i], size, cs[i]);
        if size == 0 {
          FreeMatches(shape0, bytes0, heap.shape, ptrs, cs, buffers, i);
          ok, ptrs', cs' := true, Dropped(ptrs, i), Dropped(cs, i);
        } else {
          ok := r.At?;
          if ok {
            PrefixKeeps(bytes0, cs[i], heap.bytes, d, buffers[i]);
            ReallocMatches(shape0, bytes0, heap.shape, heap.bytes, ptrs, cs, buffers, i, d);
            ptrs', cs' := ptrs[i := r.address], cs[i := d];
          }
        }
      case Write(i, offset, b) =>
        MatchAt(shape0, bytes0, ptrs, cs, buffers, i);
        PlaceOf(heap, cs[i]);
        heap.Store(ptrs[i], offset, b, cs[i]);
        WriteMatches(shape0, bytes0, heap.bytes, ptrs, cs, buffers, i, offset, b);
        ok := true;
    }
  }

  /** From an empty heap, after any legal run that the pages suffice for, every pointer's bytes are what
      independent buffers would hold, no two pointers share memory, and the heap is consistent; when
      all buffers were given back, so is every page. */
  method Run(heap: Heap, ops: seq<HeapOp>) returns (ok: bool, ptrs: seq<nat>, ghost cs: seq<Chunk>)
    requires heap.Valid() && Chunks(heap.shape) == {} && AllLegal(ops, [])
    modifies heap, heap.hook.mmu`memory, heap.hook.mmu`tree, heap.hook.mmu.frames.bytes, heap.hook.physicalPages
    ensures ok ==> heap.Valid() && Matches(heap.shape, heap.bytes, ptrs, cs, Meaning(ops, []))
    ensures ok && Meaning(ops, []) == [] ==>
      && heap.memRoot == 0 && heap.inUse == 0 && heap.allocatedBytes == 0
      && forall i :: 0 <= i < heap.hook.physicalPages.Length ==> heap.hook.physicalPages[i] == 0
    ensures !ok ==> exists i :: 0 <= i < |ops| && Exhausted(heap, ops[i])
  {
    hide Heap.Consistent, NonEmpty, Chunks, Exhausted, Effect, Legal;
    ptrs, cs := [], [];
    ghost var buffers: seq<Buffer> := [];
    for i := 0 to |ops|
      invariant heap.Valid() && Matches(heap.shape, heap.bytes, ptrs, cs, buffers)
      invariant AllLegal(ops[i..], buffers) && Meaning(ops[i..], buffers) == Meaning(ops, [])
    {
      hide Matches;
      assert ops[i..][1..] == ops[i + 1..];
      ok, ptrs, cs := Step(heap, ops[i], ptrs, cs, buffers);
      if !ok { return; }
      buffers := Effect(ops[i], buffers);
    }
    ok := true;
    if buffers == [] {
      assert Chunks(heap.shape) == {};
      heap.NothingLeft();
    }
  }
}

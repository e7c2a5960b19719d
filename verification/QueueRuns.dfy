/** Any run of pushes and pops on one ring buffer, as operations on a sequence, and exactly which pushes spoil it. */
module QueueRuns {
  import opened Queue

  datatype QueueOp<T> = Push(x: T) | Pop

  /** What matters of a ring for the next operation: its slots, where its front is, how full it is. */
  datatype Shape = Shape(slots: nat, read: nat, size: nat)

  predicate Sound(h: Shape) {
    InRing(h.slots, h.read, h.size)
  }

  /** A pop needs an element, and a push on a full ring needs the front in slot 0. */
  predicate Safe<T>(h: Shape, op: QueueOp<T>) {
    if op.Pop? then h.size > 0 else h.size < h.slots || h.read == 0
  }

  function Next<T>(h: Shape, op: QueueOp<T>): Shape
    requires Safe(h, op) && Sound(h)
  {
    if op.Pop? then Shape(h.slots, SlotAt(h.slots, h.read + 1), h.size - 1)
    else if h.size < h.slots then h.(size := h.size + 1)
    else Shape(if h.slots != 0 then h.slots * 2 else 1, h.read, h.size + 1)
  }

  function Meaning<T>(contents: seq<T>, op: QueueOp<T>): seq<T> {
    match op
    case Push(x) => contents + [x]
    case Pop => if contents == [] then [] else contents[1..]
  }

  ghost predicate AllSafe<T>(h: Shape, ops: seq<QueueOp<T>>)
    decreases |ops|
  {
    ops != [] ==> Sound(h) && Safe(h, ops[0]) && AllSafe(Next(h, ops[0]), ops[1..])
  }

  ghost function After<T>(contents: seq<T>, ops: seq<QueueOp<T>>): seq<T>
    decreases |ops|
  {
    if ops == [] then contents else After(Meaning(contents, ops[0]), ops[1..])
  }

  ghost function ShapeOf<T(0)>(q: Queue<T>): Shape
    reads q
  {
    Shape(q.dataSize, q.lastRead, q.size)
  }

  method Do<T(0,==)>(q: Queue<T>, op: QueueOp<T>)
    requires q.Valid() && Safe(ShapeOf(q), op)
    modifies q, q.data
    ensures q.Valid() && (q.data == old(q.data) || fresh(q.data))
    ensures q.Contents() == Meaning(old(q.Contents()), op) && ShapeOf(q) == Next(old(ShapeOf(q)), op)
  {
    match op
    case Push(x) => q.Push(x);
    case Pop => var x := q.Pop();
  }

  /** As long as no push meets a full ring whose front is away from slot 0, the ring is the sequence. */
  method Run<T(0,==)>(q: Queue<T>, ops: seq<QueueOp<T>>)
    requires q.Valid() && AllSafe(ShapeOf(q), ops)
    modifies q, q.data
    ensures q.Valid() && q.Contents() == After(old(q.Contents()), ops)
  {
    for i := 0 to |ops|
      invariant q.Valid() && (q.data == old(q.data) || fresh(q.data))
      invariant AllSafe(ShapeOf(q), ops[i..]) && After(q.Contents(), ops[i..]) == After(old(q.Contents()), ops)
    {
      assert ops[i..][1..] == ops[i + 1..];
      Do(q, ops[i]);
    }
  }

  /** The number of elements stays within the slots. */
  predicate WithinSlots<T>(size: nat, slots: nat, ops: seq<QueueOp<T>>)
    decreases |ops|
  {
    size <= slots && (ops != [] ==>
      match ops[0]
      case Push(_) => size < slots && WithinSlots(size + 1, slots, ops[1..])
      case Pop => size > 0 && WithinSlots(size - 1, slots, ops[1..]))
  }

  /** A queue that never holds more elements than its slots is always safe. */
  lemma {:induction false} WithinIsSafe<T>(h: Shape, ops: seq<QueueOp<T>>)
    requires Sound(h) && WithinSlots(h.size, h.slots, ops)
    ensures AllSafe(h, ops)
    decreases |ops|
  {
    if ops != [] {
      WithinIsSafe(Next(h, ops[0]), ops[1..]);
    }
  }
}

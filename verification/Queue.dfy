/** The ring buffer behind the run queues. */
module Queue {

  function Replaced<T(==)>(s: seq<T>, value: T, other: T): (r: seq<T>)
    ensures |r| == |s| && forall i :: 0 <= i < |s| ==> r[i] == if s[i] == value then other else s[i]
  {
    seq(|s|, i requires 0 <= i < |s| => if s[i] == value then other else s[i])
  }

  lemma WrapOnce(x: nat, n: nat)
    requires x <= n && n > 0
    ensures x % n == if x == n then 0 else x
  {
  }

  predicate InRing(length: nat, read: nat, n: nat) {
    n <= length && (read < length || read == length == 0)
  }

  /** The n elements from slot `read` on, wrapping round the end. */
  function Ring<T>(d: seq<T>, read: nat, n: nat): (s: seq<T>)
    requires InRing(|d|, read, n)
    ensures |s| == n
  {
    if read + n <= |d| then d[read..read + n] else d[read..] + d[..read + n - |d|]
  }

  function SlotAt(length: nat, i: nat): nat {
    if i < length then i else i - length
  }

  lemma RingAt<T>(d: seq<T>, read: nat, n: nat, i: nat)
    requires InRing(|d|, read, n) && i < n
    ensures Ring(d, read, n)[i] == d[SlotAt(|d|, read + i)]
  {
  }

  lemma RingPush<T>(d: seq<T>, read: nat, n: nat, x: T)
    requires InRing(|d|, read, n) && n < |d|
    ensures Ring(d[SlotAt(|d|, read + n) := x], read, n + 1) == Ring(d, read, n) + [x]
  {
    var d' := d[SlotAt(|d|, read + n) := x];
    forall i | 0 <= i < n ensures Ring(d', read, n + 1)[i] == Ring(d, read, n)[i] {
      RingAt(d, read, n, i);
      RingAt(d', read, n + 1, i);
    }
    RingAt(d', read, n + 1, n);
  }

  lemma RingPop<T>(d: seq<T>, read: nat, n: nat)
    requires InRing(|d|, read, n) && n > 0
    ensures Ring(d, read, n) == [d[read]] + Ring(d, SlotAt(|d|, read + 1), n - 1)
  {
    var next := SlotAt(|d|, read + 1);
    RingAt(d, read, n, 0);
    forall i | 0 < i < n ensures Ring(d, read, n)[i] == Ring(d, next, n - 1)[i - 1] {
      RingAt(d, read, n, i);
      RingAt(d, next, n - 1, i - 1);
    }
  }

  /** A full ring of n slots, grown to 2 * n with its front overwritten. */
  lemma Overwritten<T>(d: seq<T>, d': seq<T>, read: nat, x: T)
    requires 0 < read < |d| && |d'| == 2 * |d| && d'[..|d|] == d[read := x]
    ensures InRing(|d|, read, |d|) && InRing(|d'|, read, |d| + 1)
    ensures Ring(d', read, |d| + 1)[..|d| - read] == [x] + Ring(d, read, |d|)[1..|d| - read]
  {
    var k := |d| - read;
    forall i | 0 <= i < k ensures Ring(d', read, |d| + 1)[i] == ([x] + Ring(d, read, |d|)[1..k])[i] {
      RingAt(d', read, |d| + 1, i);
      RingAt(d, read, |d|, i);
      assert d'[read + i] == d'[..|d|][read + i];
    }
  }

  lemma GrownRing<T>(d: seq<T>, d': seq<T>, n: nat)
    requires n <= |d| <= |d'| && d'[..|d|] == d
    ensures InRing(|d'|, 0, n) ==> InRing(|d|, 0, n) && Ring(d', 0, n) == Ring(d, 0, n)
  {
    assert d'[..|d|][..n] == d'[..n];
  }

  class Queue<T(0, ==)> {
    var data: array<T>
    var size: nat
    var dataSize: nat
    var lastRead: nat
    var lastWritten: nat

    ghost predicate Bounded()
      reads this
    {
      data.Length == dataSize && InRing(dataSize, lastRead, size)
    }

    /** The write position is where the next element goes, kept in 1..dataSize once anything was
        pushed. */
    ghost predicate Valid()
      reads this
    {
      && Bounded()
      && lastWritten <= dataSize
      && (lastWritten == 0 ==> lastRead == 0 && size == 0)
      && (lastRead + size == lastWritten || lastRead + size == lastWritten + dataSize || lastRead + size + dataSize == lastWritten)
    }

    /** The queued elements, front first. */
    ghost function Contents(): seq<T>
      requires Bounded()
      reads this, data
    {
      Ring(data[..], lastRead, size)
    }

    constructor (capacity: nat)
      ensures Valid() && fresh(data) && dataSize == capacity && Contents() == []
    {
      data := new T[capacity];
      size, dataSize, lastRead, lastWritten := 0, capacity, 0, 0;
    }

    /** krealloc keeps the old elements where they are, as far as both buffers go, and leaves the rest
        undefined. */
    method Realloc(newSize: nat)
      requires data.Length == dataSize
      modifies this
      ensures fresh(data) && data.Length == dataSize == newSize
      ensures var kept := if newSize < old(dataSize) then newSize else old(dataSize); data[..kept] == old(data[..kept])
      ensures size == old(size) && lastRead == old(lastRead) && lastWritten == old(lastWritten)
    {
      var grown := new T[newSize];
      var kept := if newSize < dataSize then newSize else dataSize;
      for i := 0 to kept
        modifies grown
        invariant forall k :: 0 <= k < i ==> grown[k] == data[k]
      {
        grown[i] := data[i];
      }
      data, dataSize := grown, newSize;
    }

    /** The part of push after any growing. */
    method Put(x: T)
      requires Bounded() && size < dataSize && lastWritten <= dataSize
      modifies this, data
      ensures Bounded() && data == old(data) && dataSize == old(dataSize) && lastRead == old(lastRead) && size == old(size) + 1
      ensures lastWritten == SlotAt(dataSize, old(lastWritten)) + 1
      ensures data[..] == old(data[..])[SlotAt(dataSize, old(lastWritten)) := x]
    {
      WrapOnce(lastWritten, dataSize);
      lastWritten := lastWritten % dataSize;
      data[lastWritten] := x;
      lastWritten := lastWritten + 1;
      size := size + 1;
    }

    /** Appends x, unless the ring is full with its front away from slot 0. Then growing leaves the write
        position on the front element, which x replaces; the elements up to the end of the old buffer
        stay behind it, and those that had wrapped round lie in slots the ring no longer covers. */
    method Push(x: T)
      requires Valid()
      modifies this, data
      ensures Bounded() && size == old(size) + 1 && lastRead == old(lastRead) && (data == old(data) || fresh(data))
      ensures old(size >= dataSize) ==> dataSize == if old(dataSize) != 0 then 2 * old(dataSize) else 1
      ensures old(size < dataSize) ==> data == old(data) && dataSize == old(dataSize)
      ensures old(size < dataSize || lastRead == 0) ==> Valid() && Contents() == old(Contents()) + [x]
      ensures old(size == dataSize && lastRead != 0) ==>
        var k := old(dataSize - lastRead); Contents()[..k] == [x] + old(Contents())[1..k]
      ensures old(size == dataSize && lastRead != 0) && x != old(Contents())[0] ==> Contents() != old(Contents()) + [x]
      ensures old(size == dataSize && lastRead != 0) ==>
        lastRead + size <= dataSize && data[..lastRead] == old(data[..lastRead])
    {
      hide Ring;
      if size >= dataSize {
        Realloc(if dataSize != 0 then dataSize * 2 else 1);
        GrownRing(old(data[..]), data[..], size);
      }
      RingPush(data[..], lastRead, size, x);
      Put(x);
      if old(size == dataSize && lastRead != 0) {
        Overwritten(old(data[..]), data[..], lastRead, x);
        assert Contents()[..old(dataSize - lastRead)][0] == x;
      }
    }

    method Front() returns (x: T)
      requires Valid() && size > 0
      ensures x == Contents()[0]
    {
      RingAt(data[..], lastRead, size, 0);
      x := data[lastRead];
    }

    method Pop() returns (x: T)
      requires Valid() && size > 0
      modifies this
      ensures Valid() && data == old(data) && dataSize == old(dataSize)
      ensures lastRead == SlotAt(dataSize, old(lastRead) + 1) && size == old(size) - 1
      ensures [x] + Contents() == old(Contents())
    {
      x := Front();
      WrapOnce(lastRead + 1, dataSize);
      RingPop(data[..], lastRead, size);
      lastRead := (lastRead + 1) % dataSize;
      size := size - 1;
    }

    /** Whether the loop of replaceAll passes over slot k. */
    ghost predicate Visited(k: nat)
      reads this
    {
      if lastRead <= lastWritten then lastRead <= k < lastWritten else k >= lastRead || k < lastWritten
    }

    method ReplaceSlots(value: T, other: T)
      requires Valid()
      modifies data
      ensures forall k :: 0 <= k < dataSize ==> data[k] == if Visited(k) && old(data[k]) == value then other else old(data[k])
    {
      var i := lastRead;
      ghost var wrapped := false;
      while i != lastWritten
        invariant i <= dataSize
        invariant !wrapped ==> lastRead <= i && (lastRead <= lastWritten ==> i <= lastWritten)
        invariant wrapped ==> 0 < i <= lastWritten < lastRead
        invariant forall k :: 0 <= k < dataSize ==>
          data[k] == if (if wrapped then k >= lastRead || k < i else lastRead <= k < i) && old(data[k]) == value then other else old(data[k])
        decreases if wrapped then 0 else 1, if wrapped then lastWritten - i else dataSize - i
      {
        if i == dataSize {
          i := 0;
          wrapped := true;
        }
        if data[i] == value {
          data[i] := other;
        }
        i := i + 1;
      }
    }

    /** Replaces in all queued elements, unless the ring is full with its front away from slot 0:
        then the loop ends before it begins. */
    method ReplaceAll(value: T, other: T)
      requires Valid()
      modifies data
      ensures Valid()
      ensures !(size == dataSize && lastRead != 0) ==> Contents() == Replaced(old(Contents()), value, other)
      ensures size == dataSize && lastRead != 0 ==> Contents() == old(Contents())
    {
      ReplaceSlots(value, other);
      forall i | 0 <= i < size
        ensures Contents()[i] == if size == dataSize && lastRead != 0 then old(Contents())[i] else Replaced(old(Contents()), value, other)[i]
      {
        SlotOf(i);
        RingAt(data[..], lastRead, size, i);
        RingAt(old(data[..]), lastRead, size, i);
      }
    }

    lemma SlotOf(i: nat)
      requires Valid() && i < size
      ensures Visited(SlotAt(dataSize, lastRead + i)) <==> !(size == dataSize && lastRead != 0)
    {
    }
  }
}

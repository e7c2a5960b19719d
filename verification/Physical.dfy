/** The physical frame allocator: one bit per 4 KiB frame, most significant bit first,
    packed in bytes and searched first-fit. */
module Physical {
  import opened Common
  import opened FirstFit

  const PAGE_SIZE: nat := 4096

  /** 0b10000000 >> k */
  function Mask(k: nat): (m: bv8)
    requires k < 8
  {
    if k == 0 then 0x80 else if k == 1 then 0x40 else if k == 2 then 0x20 else if k == 3 then 0x10
    else if k == 4 then 0x08 else if k == 5 then 0x04 else if k == 6 then 0x02 else 0x01
  }

  lemma MaskIsShift(k: nat)
    requires k < 8
    ensures Mask(k) == 0x80 >> k
  {
  }

  predicate Bit(b: bv8, k: nat)
    requires k < 8
  {
    b & Mask(k) != 0
  }

  predicate Get(bytes: seq<bv8>, i: nat)
    requires i < 8 * |bytes|
  {
    Bit(bytes[i / 8], i % 8)
  }

  function SetIn(b: bv8, k: nat): bv8
    requires k < 8
  {
    b | Mask(k)
  }

  function ClearIn(b: bv8, k: nat): bv8
    requires k < 8
  {
    b & !Mask(k)
  }

  /** The abstract object behind the bitmap: the set of frames in use. */
  ghost function UsedFrames(bytes: seq<bv8>): set<nat> {
    set i: nat | i < 8 * |bytes| && Get(bytes, i)
  }

  predicate InRun(a: nat, n: nat, k: nat) {
    a <= k < a + n
  }

  ghost function Run(a: nat, n: nat): set<nat> {
    set k: nat | k < a + n && InRun(a, n, k)
  }

  function WithBit(bytes: seq<bv8>, i: nat): seq<bv8>
    requires i < 8 * |bytes|
  {
    bytes[i / 8 := SetIn(bytes[i / 8], i % 8)]
  }

  function WithoutBit(bytes: seq<bv8>, i: nat): seq<bv8>
    requires i < 8 * |bytes|
  {
    bytes[i / 8 := ClearIn(bytes[i / 8], i % 8)]
  }

  lemma ByteBits(b: bv8, j: nat, k: nat)
    requires j < 8 && k < 8
    ensures Bit(SetIn(b, j), k) <==> j == k || Bit(b, k)
    ensures Bit(ClearIn(b, j), k) <==> j != k && Bit(b, k)
  {
  }

  lemma BitAfter(bytes: seq<bv8>, i: nat, k: nat)
    requires i < 8 * |bytes| && k < 8 * |bytes|
    ensures Get(WithBit(bytes, i), k) <==> k == i || Get(bytes, k)
    ensures Get(WithoutBit(bytes, i), k) <==> k != i && Get(bytes, k)
  {
    hide Mask, Bit, SetIn, ClearIn;
    if k / 8 == i / 8 {
      ByteBits(bytes[k / 8], i % 8, k % 8);
    }
  }

  lemma BitUpdates(bytes: seq<bv8>, i: nat)
    requires i < 8 * |bytes|
    ensures UsedFrames(WithBit(bytes, i)) == UsedFrames(bytes) + {i}
    ensures UsedFrames(WithoutBit(bytes, i)) == UsedFrames(bytes) - {i}
  {
    hide Get, Mask, Bit, SetIn, ClearIn;
    forall k: nat | k < 8 * |bytes|
      ensures Get(WithBit(bytes, i), k) <==> k == i || Get(bytes, k)
      ensures Get(WithoutBit(bytes, i), k) <==> k != i && Get(bytes, k)
    {
      BitAfter(bytes, i, k);
    }
  }

  lemma ByteFromBits(a: bv8, b: bv8)
    requires forall k: nat :: k < 8 ==> (Bit(a, k) <==> Bit(b, k))
    ensures a == b
  {
    assert (Bit(a, 0) <==> Bit(b, 0)) && (Bit(a, 1) <==> Bit(b, 1)) && (Bit(a, 2) <==> Bit(b, 2)) && (Bit(a, 3) <==> Bit(b, 3));
    assert (Bit(a, 4) <==> Bit(b, 4)) && (Bit(a, 5) <==> Bit(b, 5)) && (Bit(a, 6) <==> Bit(b, 6)) && (Bit(a, 7) <==> Bit(b, 7));
  }

  lemma GetAt(s: seq<bv8>, j: nat, k: nat)
    requires j < |s| && k < 8
    ensures Get(s, 8 * j + k) <==> Bit(s[j], k)
  {
    hide Mask, Bit;
    assert (8 * j + k) / 8 == j && (8 * j + k) % 8 == k;
  }

  lemma SameBit(s: seq<bv8>, t: seq<bv8>, j: nat, k: nat)
    requires |s| == |t| && j < |s| && k < 8
    requires UsedFrames(s) == UsedFrames(t)
    ensures Bit(s[j], k) <==> Bit(t[j], k)
  {
    hide Mask, Get, Bit;
    GetAt(s, j, k);
    GetAt(t, j, k);
    assert Get(s, 8 * j + k) <==> 8 * j + k in UsedFrames(s);
    assert Get(t, 8 * j + k) <==> 8 * j + k in UsedFrames(t);
  }

  /** Two bitmaps of one size with the same used frames are the same bytes. */
  lemma UsedFramesDetermineBytes(s: seq<bv8>, t: seq<bv8>)
    requires |s| == |t|
    requires UsedFrames(s) == UsedFrames(t)
    ensures s == t
  {
    hide *;
    forall j | 0 <= j < |s| ensures s[j] == t[j] {
      forall k: nat | k < 8 ensures Bit(s[j], k) <==> Bit(t[j], k) {
        SameBit(s, t, j, k);
      }
      ByteFromBits(s[j], t[j]);
    }
  }

  ghost function Free(bytes: seq<bv8>): set<int> {
    set k: int | 0 <= k < 8 * |bytes| && !Get(bytes, k)
  }

  ghost function Aligned(alignment: nat): int -> bool
    requires alignment > 0
  {
    k => (k * PAGE_SIZE) % alignment == 0
  }

  lemma RunIsUnused(bytes: seq<bv8>, start: int -> bool, a: nat, n: nat)
    requires IsRun(Free(bytes), start, a, n)
    ensures UsedFrames(bytes) !! Run(a, n)
  {
    hide Get;
    forall k | k in Run(a, n) ensures k !in UsedFrames(bytes) {
      assert k in Free(bytes);
    }
  }

  class FrameBitmap {
    const bytes: array<bv8>

    constructor (bitmap: array<bv8>)
      ensures bytes == bitmap
    {
      bytes := bitmap;
    }

    ghost function Used(): set<nat>
      reads bytes
    {
      UsedFrames(bytes[..])
    }

    method SetUsed(index: nat, length: nat)
      requires index + length <= 8 * bytes.Length
      modifies bytes
      ensures Used() == old(Used()) + Run(index, length)
    {
      hide Get, Mask, Bit, SetIn, ClearIn;
      for i := index to index + length
        invariant Used() == old(Used()) + Run(index, i - index)
      {
        BitUpdates(bytes[..], i);
        ghost var next := WithBit(bytes[..], i);
        bytes[i / 8] := SetIn(bytes[i / 8], i % 8);
        assert bytes[..] == next;
        assert Run(index, i + 1 - index) == Run(index, i - index) + {i};
      }
    }

    method SetFree(index: nat, length: nat)
      requires index + length <= 8 * bytes.Length
      modifies bytes
      ensures Used() == old(Used()) - Run(index, length)
    {
      hide Get, Mask, Bit, SetIn, ClearIn;
      for i := index to index + length
        invariant Used() == old(Used()) - Run(index, i - index)
      {
        BitUpdates(bytes[..], i);
        ghost var next := WithoutBit(bytes[..], i);
        bytes[i / 8] := ClearIn(bytes[i / 8], i % 8);
        assert bytes[..] == next;
        assert Run(index, i + 1 - index) == Run(index, i - index) + {i};
      }
    }

    /** The least aligned start of a run of count free frames, as an address; None where the
        source panics, which is exactly when there is no such run. */
    method FindFreePages(count: nat, alignment: nat) returns (r: Option<nat>)
      requires count > 0 && alignment > 0
      ensures r.Some? ==>
        && r.value % PAGE_SIZE == 0 && r.value % alignment == 0
        && IsFirst(Free(bytes[..]), Aligned(alignment), 0, 8 * bytes.Length, r.value / PAGE_SIZE, count)
      ensures r.None? ==> NoRun(Free(bytes[..]), Aligned(alignment), 0, 8 * bytes.Length, count)
    {
      ghost var free, start := Free(bytes[..]), Aligned(alignment);
      var index, size := 0, 0;
      for i := 0 to 8 * bytes.Length
        invariant Scanned(free, start, 0, i, count, size)
        invariant size > 0 ==> index == i - size && (index * PAGE_SIZE) % alignment == 0
      {
        if !Bit(bytes[i / 8], i % 8) {
          if size == 0 {
            if (i * PAGE_SIZE) % alignment == 0 {
              index := i;
            } else {
              StepMisaligned(free, start, 0, i, count);
              continue;
            }
          }
          StepFree(free, start, 0, i, count, size);
          size := size + 1;
          if size == count {
            return Some(index * PAGE_SIZE);
          }
        } else {
          StepBusy(free, start, 0, i, count, size);
          size := 0;
        }
      }
      ScannedAll(free, start, 0, 8 * bytes.Length, count, size);
      r := None;
    }

    method GetFreePages(count: nat, alignment: nat) returns (r: Option<nat>)
      requires count > 0 && alignment > 0
      modifies bytes
      ensures r.Some? ==>
        && r.value % PAGE_SIZE == 0 && r.value % alignment == 0
        && old(IsFirst(Free(bytes[..]), Aligned(alignment), 0, 8 * bytes.Length, r.value / PAGE_SIZE, count))
        && Used() == old(Used()) + Run(r.value / PAGE_SIZE, count)
        && old(Used()) !! Run(r.value / PAGE_SIZE, count)
      ensures r.None? ==>
        && bytes[..] == old(bytes[..])
        && NoRun(Free(bytes[..]), Aligned(alignment), 0, 8 * bytes.Length, count)
    {
      r := FindFreePages(count, alignment);
      if r.Some? {
        RunIsUnused(bytes[..], Aligned(alignment), r.value / PAGE_SIZE, count);
        SetUsed(r.value / PAGE_SIZE, count);
      }
    }

    method FreePages(address: nat, count: nat)
      requires address % PAGE_SIZE == 0
      requires address / PAGE_SIZE + count <= 8 * bytes.Length
      modifies bytes
      ensures Used() == old(Used()) - Run(address / PAGE_SIZE, count)
    {
      SetFree(address / PAGE_SIZE, count);
    }

    /** Allocating a run and freeing it restores the bitmap byte for byte. */
    method GetThenFree(count: nat, alignment: nat) returns (r: Option<nat>)
      requires count > 0 && alignment > 0
      modifies bytes
      ensures bytes[..] == old(bytes[..])
    {
      r := GetFreePages(count, alignment);
      if r.Some? {
        FreePages(r.value, count);
        UsedFramesDetermineBytes(bytes[..], old(bytes[..]));
      }
    }
  }
}

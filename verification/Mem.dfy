/** memcpy and memmove on one memory, where source and destination may overlap. */
module Mem {
  import opened Common

  /** Byte k after `len` bytes were moved from src to dst, all read before any is written. */
  function Moved<T>(before: seq<T>, dst: nat, src: nat, len: nat, k: nat): T
    requires k < |before| && src + len <= |before|
  {
    if dst <= k < dst + len then before[src + (k - dst)] else before[k]
  }

  ghost predicate IsMove<T>(before: seq<T>, after: seq<T>, dst: nat, src: nat, len: nat) {
    && |after| == |before| && src + len <= |before| && dst + len <= |before|
    && forall k :: 0 <= k < |before| ==> after[k] == Moved(before, dst, src, len, k)
  }

  /** A forward copy never reads what it has written as long as it does not copy upwards into
      its own source. */
  lemma MoveForward<T>(before: seq<T>, now: seq<T>, after: seq<T>, dst: nat, src: nat, done: nat, m: nat)
    requires IsMove(before, now, dst, src, done) && dst + done + m <= |before| && src + done + m <= |before|
    requires dst <= src || src + done + m <= dst
    requires IsMove(now, after, dst + done, src + done, m)
    ensures IsMove(before, after, dst, src, done + m)
  {
    forall k | 0 <= k < |before| ensures after[k] == Moved(before, dst, src, done + m, k) {
      assert after[k] == Moved(now, dst + done, src + done, m, k);
      assert now[k] == Moved(before, dst, src, done, k);
      if dst + done <= k < dst + done + m {
        assert now[src + (k - dst)] == Moved(before, dst, src, done, src + (k - dst));
      }
    }
  }

  /** Where the store begins that writes byte k of len bytes copied w at a time, the rest one by one. */
  function Unit(k: nat, len: nat, w: nat): nat
    requires w > 0
  {
    if k < len - len % w then k - k % w else k
  }

  /** What a forward copy upwards leaves after the first `done` bytes: a byte is the old one if its load
      came before every store to it, and otherwise what the copy itself left there. */
  ghost predicate CopiedUp<T>(before: seq<T>, after: seq<T>, dst: nat, src: nat, len: nat, w: nat, done: nat)
    requires w > 0
  {
    && |after| == |before| && src < dst && dst + done <= |before|
    && (forall k :: 0 <= k < |before| && !(dst <= k < dst + done) ==> after[k] == before[k])
    && forall k: nat :: k < done ==>
      after[dst + k] == if dst - src <= k - Unit(k, len, w) then before[src + k] else after[src + k]
  }

  lemma UpStep<T>(before: seq<T>, now: seq<T>, after: seq<T>, dst: nat, src: nat, len: nat, w: nat, done: nat, m: nat)
    requires w > 0 && CopiedUp(before, now, dst, src, len, w, done)
    requires IsMove(now, after, dst + done, src + done, m) && forall k: nat :: done <= k < done + m ==> Unit(k, len, w) == done
    ensures CopiedUp(before, after, dst, src, len, w, done + m)
  {
    hide Unit;
    forall k | 0 <= k < |before| && !(dst + done <= k < dst + done + m) ensures after[k] == now[k] {
      assert after[k] == Moved(now, dst + done, src + done, m, k);
    }
    forall k: nat | k < done + m
      ensures after[dst + k] == if dst - src <= k - Unit(k, len, w) then before[src + k] else after[src + k]
    {
      assert after[dst + k] == Moved(now, dst + done, src + done, m, dst + k);
      assert k < done ==> src + k < dst + done;
    }
  }

  /** With a gap of at least one store, every byte written is the one a gap before it: the bytes from src
      to dst repeat. */
  lemma UpRepeats<T>(before: seq<T>, after: seq<T>, dst: nat, src: nat, len: nat, w: nat)
    requires 0 < w <= dst - src && CopiedUp(before, after, dst, src, len, w, len)
    ensures forall p :: dst <= p < dst + len ==> after[p] == after[p - (dst - src)]
  {
    hide Unit;
    forall p | dst <= p < dst + len ensures after[p] == after[p - (dst - src)] {
      var k: nat := p - dst;
      assert k - Unit(k, len, w) < w by { InsideUnit(k, len, w); }
      assert after[dst + k] == after[src + k];
    }
  }

  lemma InsideUnit(k: nat, len: nat, w: nat)
    requires w > 0
    ensures 0 <= k - Unit(k, len, w) < w
  {
  }

  /** ... so such a copy is a move exactly when its source repeats already. */
  lemma UpIsMove<T>(before: seq<T>, after: seq<T>, dst: nat, src: nat, len: nat, w: nat)
    requires 0 < w <= dst - src && CopiedUp(before, after, dst, src, len, w, len)
    ensures IsMove(before, after, dst, src, len) <==> forall p :: dst <= p < src + len ==> before[p] == before[p - (dst - src)]
  {
    UpRepeats(before, after, dst, src, len, w);
    hide CopiedUp;
    var d := dst - src;
    assert forall p :: 0 <= p < |before| && !(dst <= p < dst + len) ==> after[p] == before[p] by { UpOutside(before, after, dst, src, len, w); }
    if IsMove(before, after, dst, src, len) {
      forall p | dst <= p < src + len ensures before[p] == before[p - d] {
        assert after[p] == Moved(before, dst, src, len, p);
        assert after[p + d] == Moved(before, dst, src, len, p + d) && after[p + d] == after[p + d - d];
      }
    }
    if forall p :: dst <= p < src + len ==> before[p] == before[p - d] {
      forall p | 0 <= p < |before| ensures after[p] == Moved(before, dst, src, len, p) {
        if dst <= p < dst + len { Repeated(before, after, dst, src, len, p); }
      }
    }
  }

  lemma UpOutside<T>(before: seq<T>, after: seq<T>, dst: nat, src: nat, len: nat, w: nat)
    requires w > 0 && CopiedUp(before, after, dst, src, len, w, len)
    ensures |after| == |before| && dst + len <= |before|
    ensures forall p :: 0 <= p < |before| && !(dst <= p < dst + len) ==> after[p] == before[p]
  {
  }

  lemma {:induction false} Repeated<T>(before: seq<T>, after: seq<T>, dst: nat, src: nat, len: nat, p: nat)
    requires src < dst <= p < dst + len <= |before| == |after|
    requires forall q :: 0 <= q < |before| && !(dst <= q < dst + len) ==> after[q] == before[q]
    requires forall q :: dst <= q < dst + len ==> after[q] == after[q - (dst - src)]
    requires forall q :: dst <= q < src + len ==> before[q] == before[q - (dst - src)]
    ensures after[p] == before[p - (dst - src)]
    decreases p
  {
    if p - (dst - src) >= dst { Repeated(before, after, dst, src, len, p - (dst - src)); }
  }

  lemma WordUnits(at: nat, len: nat, w: nat)
    requires w > 0 && at % w == 0 && at + w <= len
    ensures forall k: nat :: at <= k < at + w ==> Unit(k, len, w) == at
  {
    var i := at / w;
    assert at == w * i;
    WholeUnits(at, len, w);
    forall k: nat | at <= k < at + w ensures Unit(k, len, w) == at {
      InUnit(k, i, w);
    }
  }

  lemma WholeUnits(at: nat, len: nat, w: nat)
    requires w > 0 && at % w == 0 && at + w <= len
    ensures at + w <= len - len % w
  {
    var i, n := at / w, len / w;
    assert at == w * i && len == w * n + len % w;
    if n <= i {
      if n < i { Below(n, i, w); }
      assert false;
    }
    Below(i, n, w);
  }

  lemma InUnit(k: nat, i: nat, w: nat)
    requires w > 0 && w * i <= k < w * i + w
    ensures k % w == k - w * i
  {
    var q, r := k / w, k % w;
    assert k == w * q + r;
    if q < i { Below(q, i, w); }
    if q > i { Below(i, q, w); }
  }

  lemma {:induction false} Below(i: nat, j: nat, w: nat)
    requires i < j
    ensures w * i + w <= w * j
  {
    if j > i + 1 { Below(i, j - 1, w); }
  }

  /** A forward copy of `done` bytes: a move of the old bytes unless it goes upwards into its own source. */
  ghost predicate Copied<T>(before: seq<T>, after: seq<T>, dst: nat, src: nat, len: nat, w: nat, done: nat)
    requires w > 0
  {
    && (dst <= src || src + len <= dst ==> IsMove(before, after, dst, src, done))
    && (src < dst ==> CopiedUp(before, after, dst, src, len, w, done))
  }

  lemma CopiedStep<T>(before: seq<T>, now: seq<T>, after: seq<T>, dst: nat, src: nat, len: nat, w: nat, done: nat, m: nat)
    requires w > 0 && Copied(before, now, dst, src, len, w, done) && done + m <= len
    requires |now| == |before| && dst + len <= |before| && src + len <= |before|
    requires IsMove(now, after, dst + done, src + done, m)
    requires (m == w && done % w == 0) || (m == 1 && len - len % w <= done)
    ensures Copied(before, after, dst, src, len, w, done + m)
  {
    hide IsMove, CopiedUp;
    if dst <= src || src + len <= dst { MoveForward(before, now, after, dst, src, done, m); }
    if src < dst {
      if m == w && done % w == 0 { WordUnits(done, len, w); } else { TailUnit(done, len, w); }
      hide Unit;
      UpStep(before, now, after, dst, src, len, w, done, m);
    }
  }

  /** memcpy: eight bytes at a time, then byte by byte. */
  method Memcpy(a: array<byte>, dst: nat, src: nat, size: nat)
    requires dst + size <= a.Length && src + size <= a.Length
    modifies a
    ensures Copied(old(a[..]), a[..], dst, src, size, 8, size)
  {
    hide IsMove, Copied;
    var i := 0;
    CopiedNothing(a[..], dst, src, size, 8);
    while i < size / 8
      invariant 0 <= i <= size / 8
      invariant Copied(old(a[..]), a[..], dst, src, size, 8, 8 * i)
    {
      ghost var now := a[..];
      MoveWord(a, dst + 8 * i, src + 8 * i);
      CopiedStep(old(a[..]), now, a[..], dst, src, size, 8, 8 * i, 8);
      i := i + 1;
    }
    i := i * 8;
    while i < size
      invariant 8 * (size / 8) <= i <= size
      invariant Copied(old(a[..]), a[..], dst, src, size, 8, i)
    {
      ghost var now := a[..];
      a[dst + i] := a[src + i];
      OneMoved(now, a[..], dst + i, src + i);
      CopiedStep(old(a[..]), now, a[..], dst, src, size, 8, i, 1);
      i := i + 1;
    }
  }

  lemma CopiedNothing<T>(s: seq<T>, dst: nat, src: nat, len: nat, w: nat)
    requires w > 0 && dst <= |s| && src <= |s|
    ensures Copied(s, s, dst, src, len, w, 0)
  {
  }

  lemma TailUnit(k: nat, len: nat, w: nat)
    requires w > 0 && len - len % w <= k
    ensures Unit(k, len, w) == k
  {
  }

  /** One 64-bit load followed by one 64-bit store. */
  method MoveWord(a: array<byte>, dst: nat, src: nat)
    requires dst + 8 <= a.Length && src + 8 <= a.Length
    modifies a
    ensures IsMove(old(a[..]), a[..], dst, src, 8)
  {
    var w := a[src..src + 8];
    forall j | 0 <= j < 8 {
      a[dst + j] := w[j];
    }
    assert forall k :: 0 <= k < a.Length ==> a[..][k] == a[k];
  }

  lemma OneMoved<T>(now: seq<T>, after: seq<T>, dst: nat, src: nat)
    requires dst < |now| && src < |now| && after == now[dst := now[src]]
    ensures IsMove(now, after, dst, src, 1)
  {
  }

  /** memmove: right for every overlap. Elements are bytes for the kernel's buffers and whole
      pointers where an array of pointers is shifted. */
  method Memmove(a: array<byte>, dst: nat, src: nat, len: nat)
    requires dst + len <= a.Length && src + len <= a.Length
    modifies a
    ensures IsMove(old(a[..]), a[..], dst, src, len)
  {
    if dst < src {
      Memcpy(a, dst, src, len);
      return;
    }
    MoveBackward(a, dst, src, len);
  }

  /** The downward loop of memmove, for dst >= src. */
  method MoveBackward<T>(a: array<T>, dst: nat, src: nat, len: nat)
    requires src <= dst && dst + len <= a.Length
    modifies a
    ensures IsMove(old(a[..]), a[..], dst, src, len)
  {
    var i := len;
    while i > 0
      invariant 0 <= i <= len
      invariant forall k :: 0 <= k < a.Length ==> a[k] == if dst + i <= k < dst + len then old(a[src + (k - dst)]) else old(a[k])
    {
      a[dst + (i - 1)] := a[src + (i - 1)];
      i := i - 1;
    }
    assert forall k :: 0 <= k < a.Length ==> a[..][k] == a[k];
  }
}

/** First-fit search over a row of cells, as done by the physical frame allocator, the
    virtual page search and the heap's page hook. The searches differ only in what a free
    cell is and in which cells a run may start, so both are parameters here. */
module FirstFit {

  /** Cells a, a+1, ..., a+n-1 are all free and a run may start at a. */
  ghost predicate IsRun(free: set<int>, start: int -> bool, a: int, n: int) {
    start(a) && forall k :: a <= k < a + n ==> k in free
  }

  /** a is the least start in [lo, ...) of a run of n free cells that ends by hi. */
  ghost predicate IsFirst(free: set<int>, start: int -> bool, lo: int, hi: int, a: int, n: int) {
    && lo <= a && a + n <= hi
    && IsRun(free, start, a, n)
    && forall b :: lo <= b < a ==> !IsRun(free, start, b, n)
  }

  ghost predicate NoRun(free: set<int>, start: int -> bool, lo: int, hi: int, n: int) {
    forall b :: lo <= b && b + n <= hi ==> !IsRun(free, start, b, n)
  }

  /** No restriction on where a run starts. */
  ghost function Anywhere(): int -> bool {
    p => true
  }

  /** What a left-to-right scan knows after looking at cells [lo, cur): the last `found` of
      them are free and form the only start still alive. */
  ghost predicate Scanned(free: set<int>, start: int -> bool, lo: int, cur: int, n: int, found: int) {
    && 0 <= found < n
    && lo <= cur - found
    && (found > 0 ==> start(cur - found))
    && (forall k :: cur - found <= k < cur ==> k in free)
    && (forall b :: lo <= b < cur - found ==> !IsRun(free, start, b, n))
  }

  lemma StepBusy(free: set<int>, start: int -> bool, lo: int, cur: int, n: int, found: int)
    requires Scanned(free, start, lo, cur, n, found)
    requires cur !in free
    ensures Scanned(free, start, lo, cur + 1, n, 0)
  {
    forall b | lo <= b < cur + 1 ensures !IsRun(free, start, b, n) {
      if b >= cur - found {
        assert b <= cur < b + n && cur !in free;
      }
    }
  }

  lemma StepFree(free: set<int>, start: int -> bool, lo: int, cur: int, n: int, found: int)
    requires Scanned(free, start, lo, cur, n, found)
    requires cur in free && (found > 0 || start(cur))
    ensures found + 1 < n ==> Scanned(free, start, lo, cur + 1, n, found + 1)
    ensures found + 1 == n ==> IsFirst(free, start, lo, cur + 1, cur + 1 - n, n)
  {
    assert found + 1 == n ==> IsRun(free, start, cur + 1 - n, n);
  }

  lemma StepMisaligned(free: set<int>, start: int -> bool, lo: int, cur: int, n: int)
    requires Scanned(free, start, lo, cur, n, 0)
    requires !start(cur)
    ensures Scanned(free, start, lo, cur + 1, n, 0)
  {
  }

  lemma ScannedAll(free: set<int>, start: int -> bool, lo: int, hi: int, n: int, found: int)
    requires Scanned(free, start, lo, hi, n, found)
    ensures NoRun(free, start, lo, hi, n)
  {
  }

  lemma ScanBound(free: set<int>, start: int -> bool, lo: int, cur: int, n: int, found: int)
    requires Scanned(free, start, lo, cur, n, found)
    ensures 0 <= found < n
  {
  }

  lemma FirstLater(free: set<int>, start: int -> bool, lo: int, hi: int, hi': int, a: int, n: int)
    requires IsFirst(free, start, lo, hi, a, n) && hi <= hi'
    ensures IsFirst(free, start, lo, hi', a, n)
  {
  }

  lemma ScanStart(free: set<int>, start: int -> bool, lo: int, n: int)
    ensures n > 0 ==> Scanned(free, start, lo, lo, n, 0)
  {
  }
}

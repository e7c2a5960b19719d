/** Load balancing: the CPUs are sorted by queue length and the longest queue gives threads to
    the shortest, the second longest to the second shortest, and so on. */
module Balance {
  import opened Mem

  type Tid = nat
  type Queues = seq<seq<Tid>>

  // ----- sorting the CPUs by insertion -----

  predicate Within(order: seq<nat>, n: nat) {
    forall i :: 0 <= i < |order| ==> order[i] < n
  }

  /** Where CPU k goes in a list sorted by queue length: before the first longer queue. */
  function Position(qs: Queues, order: seq<nat>, k: nat): (p: nat)
    requires k < |qs| && Within(order, |qs|)
    ensures p <= |order|
    ensures forall i :: 0 <= i < p ==> |qs[order[i]]| <= |qs[k]|
    ensures p < |order| ==> |qs[order[p]]| > |qs[k]|
  {
    if order == [] || |qs[order[0]]| > |qs[k]| then 0 else 1 + Position(qs, order[1..], k)
  }

  function Order(qs: Queues, n: nat): (order: seq<nat>)
    requires n <= |qs|
    ensures |order| == n && Within(order, n)
  {
    if n == 0 then []
    else
      var o := Order(qs, n - 1);
      var p := Position(qs, o, n - 1);
      Insert(o, p, n - 1)
  }

  predicate Sorted(qs: Queues, order: seq<nat>)
    requires Within(order, |qs|)
  {
    forall i, j :: 0 <= i < j < |order| ==> |qs[order[i]]| <= |qs[order[j]]|
  }

  predicate Distinct(order: seq<nat>) {
    forall i, j :: 0 <= i < j < |order| ==> order[i] != order[j]
  }

  function Insert(o: seq<nat>, p: nat, k: nat): seq<nat>
    requires p <= |o|
  {
    o[..p] + [k] + o[p..]
  }

  lemma InsertAt(o: seq<nat>, p: nat, k: nat, i: nat)
    requires p <= |o| && i <= |o|
    ensures |Insert(o, p, k)| == |o| + 1
    ensures Insert(o, p, k)[i] == if i < p then o[i] else if i == p then k else o[i - 1]
  {
  }

  lemma InsertSorts(qs: Queues, o: seq<nat>, k: nat)
    requires k < |qs| && Within(o, k) && Sorted(qs, o) && Distinct(o)
    ensures var o' := Insert(o, Position(qs, o, k), k); Within(o', k + 1) && Sorted(qs, o') && Distinct(o')
  {
    hide Insert;
    var p := Position(qs, o, k);
    var o' := Insert(o, p, k);
    InsertAt(o, p, k, 0);
    forall i | 0 <= i < |o'| ensures o'[i] < k + 1 {
      InsertAt(o, p, k, i);
    }
    forall i, j | 0 <= i < j < |o'| ensures |qs[o'[i]]| <= |qs[o'[j]]| && o'[i] != o'[j] {
      InsertAt(o, p, k, i);
      InsertAt(o, p, k, j);
      if i == p {
        assert p == j - 1 || |qs[o[p]]| <= |qs[o[j - 1]]|;
      }
    }
  }

  lemma NoneSorted(qs: Queues)
    ensures Sorted(qs, []) && Distinct([])
  {
  }

  /** The order is sorted and names no CPU twice ... */
  lemma {:induction false} OrderSorts(qs: Queues, n: nat)
    requires n <= |qs|
    ensures Sorted(qs, Order(qs, n)) && Distinct(Order(qs, n))
  {
    hide Sorted, Distinct, Insert, Position;
    if n == 0 {
      NoneSorted(qs);
    } else {
      OrderSorts(qs, n - 1);
      InsertSorts(qs, Order(qs, n - 1), n - 1);
    }
  }

  /** Of queues of one length the earlier CPU comes first. */
  predicate Stable(qs: Queues, order: seq<nat>)
    requires Within(order, |qs|)
  {
    forall i, j :: 0 <= i < j < |order| && |qs[order[i]]| == |qs[order[j]]| ==> order[i] < order[j]
  }

  lemma InsertStable(qs: Queues, o: seq<nat>, k: nat)
    requires k < |qs| && Within(o, k) && Sorted(qs, o) && Stable(qs, o)
    ensures var o' := Insert(o, Position(qs, o, k), k); Within(o', k + 1) && Stable(qs, o')
  {
    hide Insert;
    var p := Position(qs, o, k);
    var o' := Insert(o, p, k);
    InsertAt(o, p, k, 0);
    forall i | 0 <= i < |o'| ensures o'[i] < k + 1 {
      InsertAt(o, p, k, i);
    }
    forall i, j | 0 <= i < j < |o'| && |qs[o'[i]]| == |qs[o'[j]]| ensures o'[i] < o'[j] {
      InsertAt(o, p, k, i);
      InsertAt(o, p, k, j);
    }
  }

  lemma {:induction false} OrderStable(qs: Queues, n: nat)
    requires n <= |qs|
    ensures Stable(qs, Order(qs, n))
  {
    hide Sorted, Stable, Insert, Position;
    if n == 0 {
      assert Stable(qs, []) by { NoneStable(qs); }
    } else {
      OrderStable(qs, n - 1);
      OrderSorts(qs, n - 1);
      InsertStable(qs, Order(qs, n - 1), n - 1);
    }
  }

  lemma NoneStable(qs: Queues)
    ensures Stable(qs, [])
  {
  }

  /** ... and names them all. */
  lemma {:induction false} OrderComplete(qs: Queues, n: nat, c: nat)
    requires c < n <= |qs|
    ensures c in Order(qs, n)
  {
    var o := Order(qs, n - 1);
    if c < n - 1 { OrderComplete(qs, n - 1, c); }
    InsertKeeps(o, Position(qs, o, n - 1), n - 1, c);
  }

  lemma InsertKeeps(o: seq<nat>, p: nat, k: nat, c: nat)
    requires p <= |o|
    ensures c in Insert(o, p, k) <==> c == k || c in o
  {
    assert o == o[..p] + o[p..];
  }

  // ----- moving threads within a pair -----

  function Surplus(q1: seq<Tid>, q2: seq<Tid>): (m: nat)
    ensures m <= |q2|
  {
    if |q2| > |q1| then (|q2| - |q1|) / 2 else 0
  }

  function Shared(q1: seq<Tid>, q2: seq<Tid>): (r: (seq<Tid>, seq<Tid>)) {
    var m := Surplus(q1, q2);
    (q1 + q2[..m], q2[m..])
  }

  /** Queues after the first i pairs of the order have shared. */
  function Pairs(qs: Queues, order: seq<nat>, i: nat): (r: Queues)
    requires |order| == |qs| && Within(order, |qs|) && i <= |qs| / 2
    ensures |r| == |qs|
  {
    if i == 0 then qs
    else
      var r := Pairs(qs, order, i - 1);
      var a, b := order[i - 1], order[|qs| - i];
      var s := Shared(r[a], r[b]);
      r[a := s.0][b := s.1]
  }

  function Balanced(qs: Queues): (r: Queues)
    ensures |r| == |qs|
  {
    Pairs(qs, Order(qs, |qs|), |qs| / 2)
  }

  /** What the CPU at place j of the order has after the first i pairs shared: its own pair's
      threads shared once, or what it had. */
  function PairResult(qs: Queues, order: seq<nat>, i: nat, j: nat): seq<Tid>
    requires |order| == |qs| && Within(order, |qs|) && j < |qs|
  {
    if j < i then Shared(qs[order[j]], qs[order[|qs| - 1 - j]]).0
    else if |qs| - 1 - j < i then Shared(qs[order[|qs| - 1 - j]], qs[order[j]]).1
    else qs[order[j]]
  }

  lemma PairsStep(qs: Queues, order: seq<nat>, i: nat, c: nat)
    requires |order| == |qs| && Within(order, |qs|) && Distinct(order) && 0 < i <= |qs| / 2 && c < |qs|
    ensures var r, a, b := Pairs(qs, order, i - 1), order[i - 1], order[|qs| - i];
      a != b && Pairs(qs, order, i)[c] ==
        if c == a then Shared(r[a], r[b]).0 else if c == b then Shared(r[a], r[b]).1 else r[c]
  {
    hide Shared;
  }

  lemma PairResultStep(qs: Queues, order: seq<nat>, i: nat, j: nat)
    requires |order| == |qs| && Within(order, |qs|) && 0 < i <= |qs| / 2 && j < |qs|
    ensures var s := Shared(PairResult(qs, order, i - 1, i - 1), PairResult(qs, order, i - 1, |qs| - i));
      PairResult(qs, order, i, j) == if j == i - 1 then s.0 else if j == |qs| - i then s.1 else PairResult(qs, order, i - 1, j)
  {
    hide Shared;
  }

  lemma PairsStart(qs: Queues, order: seq<nat>, j: nat)
    requires |order| == |qs| && Within(order, |qs|) && j < |qs|
    ensures Pairs(qs, order, 0) == qs && PairResult(qs, order, 0, j) == qs[order[j]]
  {
  }

  lemma OnlyPlace(order: seq<nat>, i: nat, j: nat)
    requires Distinct(order) && i < |order| && j < |order|
    ensures order[i] == order[j] <==> i == j
  {
  }

  lemma {:induction false} PairsAt(qs: Queues, order: seq<nat>, i: nat, j: nat)
    requires |order| == |qs| && Within(order, |qs|) && Distinct(order) && i <= |qs| / 2 && j < |qs|
    ensures Pairs(qs, order, i)[order[j]] == PairResult(qs, order, i, j)
  {
    hide Shared, Pairs, Distinct, PairResult;
    if i == 0 {
      PairsStart(qs, order, j);
    } else {
      PairsStep(qs, order, i, order[j]);
      OnlyPlace(order, j, i - 1);
      OnlyPlace(order, j, |qs| - i);
      PairResultStep(qs, order, i, j);
      PairsAt(qs, order, i - 1, i - 1);
      PairsAt(qs, order, i - 1, |qs| - i);
      PairsAt(qs, order, i - 1, j);
    }
  }

  /** After balancing, the two queues of a pair differ by at most one, and every queue's length
      lies between the lengths its pair had before. */
  lemma BalancedPair(qs: Queues, j: nat)
    requires j < |qs|
    ensures var order, r := Order(qs, |qs|), Balanced(qs);
      var a, b := order[j], order[|qs| - 1 - j];
      && |r[a]| + |r[b]| == |qs[a]| + |qs[b]|
      && (a != b ==> -1 <= |r[a]| - |r[b]| <= 1)
      && (|qs[a]| <= |r[a]| <= |qs[b]| || |qs[b]| <= |r[a]| <= |qs[a]|)
  {
    hide Order, Pairs;
    OrderSorts(qs, |qs|);
    var order := Order(qs, |qs|);
    PairsAt(qs, order, |qs| / 2, j);
    PairsAt(qs, order, |qs| / 2, |qs| - 1 - j);
  }

  /** What balancing does to each queue: of a pair the longer queue gives its front threads, half the
      difference, and they follow the other's own threads in order. */
  lemma BalancedMoves(qs: Queues, j: nat)
    requires j < |qs| / 2
    ensures var order, r := Order(qs, |qs|), Balanced(qs);
      var a, b := order[j], order[|qs| - 1 - j];
      var k := (|qs[b]| - |qs[a]|) / 2;
      a != b && |qs[a]| <= |qs[b]| && r[a] == qs[a] + qs[b][..k] && r[b] == qs[b][k..]
  {
    hide *;
    var order := Order(qs, |qs|);
    OrderSorts(qs, |qs|);
    OnlyPlace(order, j, |qs| - 1 - j);
    BalancedAt(qs, j);
    BalancedAt(qs, |qs| - 1 - j);
    PairGives(qs, order, j);
  }

  lemma BalancedAt(qs: Queues, j: nat)
    requires j < |qs|
    ensures var order := Order(qs, |qs|); Balanced(qs)[order[j]] == PairResult(qs, order, |qs| / 2, j)
  {
    hide Order, Pairs, PairResult;
    OrderSorts(qs, |qs|);
    PairsAt(qs, Order(qs, |qs|), |qs| / 2, j);
  }

  lemma PairGives(qs: Queues, order: seq<nat>, j: nat)
    requires |order| == |qs| && Within(order, |qs|) && Sorted(qs, order) && j < |qs| / 2
    ensures var a, b, n := order[j], order[|qs| - 1 - j], |qs| / 2;
      var k := (|qs[b]| - |qs[a]|) / 2;
      && |qs[a]| <= |qs[b]|
      && PairResult(qs, order, n, j) == qs[a] + qs[b][..k] && PairResult(qs, order, n, |qs| - 1 - j) == qs[b][k..]
  {
  }

  /** The CPU in the middle of an odd number keeps its queue. */
  lemma MiddleStays(qs: Queues)
    requires |qs| % 2 == 1
    ensures var a := Order(qs, |qs|)[|qs| / 2]; Balanced(qs)[a] == qs[a]
  {
    hide Order, Pairs;
    OrderSorts(qs, |qs|);
    PairsAt(qs, Order(qs, |qs|), |qs| / 2, |qs| / 2);
  }

  /** Balancing never lengthens the longest queue nor shortens the shortest. */
  lemma BalancedWithin(qs: Queues, lo: nat, hi: nat)
    requires forall i :: 0 <= i < |qs| ==> lo <= |qs[i]| <= hi
    ensures forall i :: 0 <= i < |qs| ==> lo <= |Balanced(qs)[i]| <= hi
  {
    OrderSorts(qs, |qs|);
    var order := Order(qs, |qs|);
    forall i | 0 <= i < |qs| ensures lo <= |Balanced(qs)[i]| <= hi {
      OrderComplete(qs, |qs|, i);
      var j :| 0 <= j < |order| && order[j] == i;
      BalancedPair(qs, j);
      assert order[|qs| - 1 - j] in order;
    }
  }

  /** Queues whose lengths differ by at most one stay as they are. */
  lemma EvenStays(qs: Queues)
    requires forall i, j :: 0 <= i < |qs| && 0 <= j < |qs| ==> |qs[i]| <= |qs[j]| + 1
    ensures Balanced(qs) == qs
  {
    hide Order, Pairs;
    OrderSorts(qs, |qs|);
    var order, n := Order(qs, |qs|), |qs|;
    forall i | 0 <= i < n ensures Balanced(qs)[i] == qs[i] {
      OrderComplete(qs, n, i);
      var j :| 0 <= j < n && order[j] == i;
      PairsAt(qs, order, n / 2, j);
      assert |qs[order[n - 1 - j]]| <= |qs[i]| + 1 && |qs[i]| <= |qs[order[n - 1 - j]]| + 1;
    }
  }

  lemma OrderAt(qs: Queues, order: seq<nat>, i: nat, j: nat)
    requires Within(order, |qs|) && Sorted(qs, order) && Stable(qs, order) && i <= j < |order|
    ensures |qs[order[i]]| <= |qs[order[j]]| && (|qs[order[i]]| == |qs[order[j]]| ==> i == j || order[i] < order[j])
  {
  }

  /** One long queue, the others empty. */
  predicate OneLong(qs: Queues, lo: nat, hi: nat) {
    && lo < |qs| && hi < |qs| && |qs[hi]| >= 2 && lo == (if hi == 0 then 1 else 0)
    && forall i :: 0 <= i < |qs| && i != hi ==> qs[i] == []
  }

  /** The long queue comes last, the first of the others first. */
  lemma OneLongOrder(qs: Queues, lo: nat, hi: nat)
    requires OneLong(qs, lo, hi)
    ensures var order := Order(qs, |qs|); order[0] == lo && order[|qs| - 1] == hi
  {
    hide Order, Distinct, Sorted, Stable;
    var order, n := Order(qs, |qs|), |qs|;
    OrderSorts(qs, n);
    OrderStable(qs, n);
    OrderComplete(qs, n, lo);
    OrderComplete(qs, n, hi);
    var p :| 0 <= p < n && order[p] == lo;
    var q :| 0 <= q < n && order[q] == hi;
    OrderAt(qs, order, q, n - 1);
    OnlyPlace(order, q, n - 1);
    OnlyPlace(order, 0, n - 1);
    OrderAt(qs, order, 0, p);
  }

  lemma OneLongAt(qs: Queues, lo: nat, hi: nat, j: nat)
    requires OneLong(qs, lo, hi) && j < |qs|
    ensures var m, i := |qs[hi]| / 2, Order(qs, |qs|)[j];
      Balanced(qs)[i] == if i == lo then qs[hi][..m] else if i == hi then qs[hi][m..] else []
  {
    hide Order, Pairs, Distinct;
    var order, n := Order(qs, |qs|), |qs|;
    OneLongOrder(qs, lo, hi);
    OrderSorts(qs, n);
    PairsAt(qs, order, n / 2, j);
    OnlyPlace(order, j, 0);
    OnlyPlace(order, j, n - 1);
    OnlyPlace(order, n - 1 - j, n - 1);
  }

  /** Half of the one long queue goes to the first of the others. */
  lemma LongGivesHalf(qs: Queues, lo: nat, hi: nat)
    requires OneLong(qs, lo, hi)
    ensures var m := |qs[hi]| / 2; Balanced(qs) == qs[lo := qs[hi][..m]][hi := qs[hi][m..]]
  {
    hide Order, Balanced;
    var order, n, m := Order(qs, |qs|), |qs|, |qs[hi]| / 2;
    forall i | 0 <= i < n ensures Balanced(qs)[i] == qs[lo := qs[hi][..m]][hi := qs[hi][m..]][i] {
      OrderComplete(qs, n, i);
      var j :| 0 <= j < n && order[j] == i;
      OneLongAt(qs, lo, hi, j);
    }
  }

  // ----- nothing is lost -----

  function All(qs: Queues): multiset<Tid> {
    if qs == [] then multiset{} else All(qs[..|qs| - 1]) + multiset(qs[|qs| - 1])
  }

  lemma {:induction false} AllUpdate(qs: Queues, i: nat, q: seq<Tid>)
    requires i < |qs|
    ensures All(qs[i := q]) + multiset(qs[i]) == All(qs) + multiset(q)
  {
    var qs' := qs[i := q];
    if i == |qs| - 1 {
      assert qs'[..|qs| - 1] == qs[..|qs| - 1];
    } else {
      var pre := qs[..|qs| - 1];
      assert qs'[..|qs| - 1] == pre[i := q];
      AllUpdate(pre, i, q);
      var last := multiset(qs[|qs| - 1]);
      assert All(qs') == All(pre[i := q]) + last && All(qs) == All(pre) + last;
      assert All(qs') + multiset(qs[i]) == (All(pre[i := q]) + multiset(pre[i])) + last;
    }
  }

  lemma SharedConserves(q1: seq<Tid>, q2: seq<Tid>)
    ensures multiset(Shared(q1, q2).0) + multiset(Shared(q1, q2).1) == multiset(q1) + multiset(q2)
  {
    var m := Surplus(q1, q2);
    assert q2[..m] + q2[m..] == q2;
  }

  lemma Cancel(x: multiset<Tid>, y: multiset<Tid>, z: multiset<Tid>, a: multiset<Tid>, a': multiset<Tid>, b: multiset<Tid>, b': multiset<Tid>)
    requires y + a == x + a' && z + b == y + b' && a' + b' == a + b
    ensures z == x
  {
    forall t ensures z[t] == x[t] {
      assert (y + a)[t] == (x + a')[t] && (z + b)[t] == (y + b')[t] && (a' + b')[t] == (a + b)[t];
    }
  }

  lemma {:induction false} PairsConserve(qs: Queues, order: seq<nat>, i: nat)
    requires |order| == |qs| && Within(order, |qs|) && Distinct(order) && i <= |qs| / 2
    ensures All(Pairs(qs, order, i)) == All(qs)
  {
    hide Shared, All;
    if i > 0 {
      PairsConserve(qs, order, i - 1);
      var r := Pairs(qs, order, i - 1);
      var a, b := order[i - 1], order[|qs| - i];
      assert a != b;
      var s := Shared(r[a], r[b]);
      AllUpdate(r, a, s.0);
      AllUpdate(r[a := s.0], b, s.1);
      SharedConserves(r[a], r[b]);
      Cancel(All(r), All(r[a := s.0]), All(r[a := s.0][b := s.1]), multiset(r[a]), multiset(s.0), multiset(r[b]), multiset(s.1));
    }
  }

  /** The queued threads are the same before and after, as a multiset. */
  lemma BalancedConserves(qs: Queues)
    ensures All(Balanced(qs)) == All(qs)
  {
    OrderSorts(qs, |qs|);
    PairsConserve(qs, Order(qs, |qs|), |qs| / 2);
  }

  // ----- the loops of balance -----

  const WORD: nat := 0x1_0000_0000_0000_0000

  /** `size() - 1` on a 64-bit unsigned size. */
  function UnsignedPred(size: nat): nat {
    if size == 0 then WORD - 1 else size - 1
  }

  /** The transfer loop of one pair; it stops on an empty queue in spite of the wrap-around. */
  method Transfer(q1: seq<Tid>, q2: seq<Tid>) returns (a: seq<Tid>, b: seq<Tid>)
    requires |q1| + |q2| < WORD - 1
    ensures var m := if |q2| > |q1| then (|q2| - |q1|) / 2 else 0; a == q1 + q2[..m] && b == q2[m..]
    ensures (a, b) == Shared(q1, q2)
  {
    a, b := q1, q2;
    ghost var m := 0;
    while UnsignedPred(|b|) > |a|
      invariant 0 <= m <= Surplus(q1, q2)
      invariant a == q1 + q2[..m] && b == q2[m..]
      decreases |b|
    {
      if b == [] { break; }
      a, b := a + [b[0]], b[1..];
      m := m + 1;
    }
  }

  lemma PositionUnique(qs: Queues, o: seq<nat>, k: nat, i: nat)
    requires k < |qs| && Within(o, |qs|) && i <= |o|
    requires forall l :: 0 <= l < i ==> |qs[o[l]]| <= |qs[k]|
    requires i < |o| ==> |qs[o[i]]| > |qs[k]|
    ensures i == Position(qs, o, k)
  {
  }

  /** Slots 0..k-1 of the array are the order of the first k CPUs, the rest still null. */
  ghost predicate Holds(s: seq<int>, o: seq<nat>) {
    |o| <= |s| && forall l :: 0 <= l < |s| ==> s[l] == if l < |o| then o[l] else -1
  }

  /** Slot l once CPU k was put into slot i: the later slots move up unless slot i was free. */
  function NewSlot(s: seq<int>, used: nat, i: nat, k: nat, l: nat): int
    requires l < |s|
  {
    if l < i then s[l] else if l == i then k else if i < used then s[l - 1] else s[l]
  }

  lemma HoldsInserted(s: seq<int>, s': seq<int>, o: seq<nat>, i: nat, k: nat)
    requires Holds(s, o) && |o| < |s| && i <= |o| && |s'| == |s|
    requires forall l :: 0 <= l < |s| ==> s'[l] == NewSlot(s, |o|, i, k, l)
    ensures Holds(s', Insert(o, i, k))
  {
    hide Insert;
    InsertAt(o, i, k, 0);
    forall l | 0 <= l < |s'| ensures s'[l] == if l < |o| + 1 then Insert(o, i, k)[l] else -1 {
      assert s'[l] == NewSlot(s, |o|, i, k, l);
      if l > i && i < |o| { HoldsAt(s, o, l - 1); } else { HoldsAt(s, o, l); }
      if l <= |o| { InsertAt(o, i, k, l); }
    }
  }

  lemma HoldsAt(s: seq<int>, o: seq<nat>, l: nat)
    requires Holds(s, o) && l < |s|
    ensures s[l] == if l < |o| then o[l] else -1
  {
  }

  /** Puts CPU k into the array, shifting the longer queues up with memmove. */
  method InsertCpu(qs: Queues, sorted: array<int>, k: nat, ghost o: seq<nat>)
    requires k < |qs| == sorted.Length && o == Order(qs, k) && Holds(sorted[..], o)
    modifies sorted
    ensures Holds(sorted[..], Order(qs, k + 1))
  {
    hide Order, Position;
    ghost var s := sorted[..];
    var n, i := |qs|, 0;
    while i < n
      invariant i <= k && sorted[..] == s
      invariant forall l :: 0 <= l < i ==> |qs[o[l]]| <= |qs[k]|
    {
      assert sorted[i] == s[i];
      if sorted[i] == -1 {
        sorted[i] := k;
        break;
      }
      assert sorted[i] == o[i];
      if |qs[sorted[i]]| > |qs[k]| {
        MoveBackward(sorted, i + 1, i, n - i - 1);
        MoveUp(s, sorted[..], i);
        sorted[i] := k;
        break;
      }
      i := i + 1;
    }
    assert i <= k;
    PositionUnique(qs, o, k, i);
    assert forall l :: 0 <= l < n ==> sorted[..][l] == NewSlot(s, k, i, k, l);
    HoldsInserted(s, sorted[..], o, i, k);
    OrderNext(qs, k);
  }

  lemma MoveUp(s: seq<int>, s': seq<int>, i: nat)
    requires i < |s| && IsMove(s, s', i + 1, i, |s| - i - 1)
    ensures |s'| == |s| && forall l, k, n :: 0 <= l < |s| && l != i && i < n ==> s'[l] == NewSlot(s, n, i, k, l)
  {
    forall l, k, n | 0 <= l < |s| && l != i && i < n ensures s'[l] == NewSlot(s, n, i, k, l) {
      assert s'[l] == Moved(s, i + 1, i, |s| - i - 1, l);
    }
  }

  lemma OrderNext(qs: Queues, k: nat)
    requires k < |qs|
    ensures Order(qs, k + 1) == Insert(Order(qs, k), Position(qs, Order(qs, k), k), k)
  {
  }

  /** The first half of balance: the CPUs by queue length. */
  method SortCpus(qs: Queues) returns (sorted: array<int>)
    ensures fresh(sorted) && Holds(sorted[..], Order(qs, |qs|)) && sorted.Length == |qs|
  {
    hide Order, Holds;
    sorted := new int[|qs|](_ => -1);
    OrderEmpty(qs);
    HoldsNothing(sorted[..]);
    for k := 0 to |qs|
      invariant Holds(sorted[..], Order(qs, k))
    {
      InsertCpu(qs, sorted, k, Order(qs, k));
    }
  }

  /** balance. */
  method BalanceQueues(qs: Queues) returns (r: Queues)
    requires forall i, j :: 0 <= i < |qs| && 0 <= j < |qs| ==> |qs[i]| + |qs[j]| < WORD - 1
    ensures r == Balanced(qs)
  {
    hide Order, Shared, PairResult, Holds, Distinct, Sorted;
    var n := |qs|;
    var sorted := SortCpus(qs);
    ghost var order := Order(qs, n);
    OrderSorts(qs, n);
    r := qs;
    for i := 0 to n / 2
      invariant Holds(sorted[..], order)
      invariant r == Pairs(qs, order, i)
    {
      HoldsAt(sorted[..], order, i);
      HoldsAt(sorted[..], order, n - i - 1);
      var cpu1, cpu2 := sorted[i], sorted[n - i - 1];
      PairsAt(qs, order, i, i);
      PairsAt(qs, order, i, n - i - 1);
      NotYetShared(qs, order, i);
      var a, b := Transfer(r[cpu1], r[cpu2]);
      r := r[cpu1 := a][cpu2 := b];
    }
  }

  lemma HoldsNothing(s: seq<int>)
    requires forall l :: 0 <= l < |s| ==> s[l] == -1
    ensures Holds(s, [])
  {
  }

  lemma OrderEmpty(qs: Queues)
    ensures Order(qs, 0) == []
  {
  }

  lemma NotYetShared(qs: Queues, order: seq<nat>, i: nat)
    requires |order| == |qs| && Within(order, |qs|) && i < |qs| / 2
    ensures PairResult(qs, order, i, i) == qs[order[i]]
    ensures PairResult(qs, order, i, |qs| - i - 1) == qs[order[|qs| - i - 1]]
  {
  }
}

/** The run-queue locks at the grain of single compare-and-swaps, with the CPUs interleaving
    freely: who holds, who spins, and why no CPUs wait for each other in a cycle. The loop that pops
    threads under a lock is part of one action here; Picking.EndsExactly says when it ends. */
module Locks {
  import opened Common

  /** Where a CPU is. The Want positions spin on a queue lock. */
  datatype Pc =
    | InThread
    | WantAdd(queue: nat) | Adding(queue: nat)       // addThread; or a destroyer, which keeps to the queue of the CPU it first ran on
    | WantPush | Pushing                             // the tick and yield handlers
    | WantPick | Scanning(next: nat) | Stealing(from: nat) | Picked  // switchNext
    | Deciding                                       // whether to balance
    | Balancing(pair: nat)                           // balance, under the balance lock throughout
    | WantFirst(pair: nat, first: nat, second: nat)
    | WantSecond(pair: nat, first: nat, second: nat)
    | Moving(pair: nat, first: nat, second: nat)
    | HalfDone(pair: nat, second: nat)

  /** `under` is the queue whose lock a preempted thread of this CPU still holds, if a tick interrupted it. */
  datatype Cpu = Cpu(pc: Pc, under: Option<nat>)

  /** Each queue's lock and the balance lock, with the CPU that took it. */
  datatype Sys = Sys(cpus: seq<Cpu>, locks: seq<Option<nat>>, balance: Option<nat>)

  /** What an action does to the locks: a queue lock taken or dropped, the balance lock taken or dropped. */
  datatype Effect = Nothing | Take(l: nat) | Drop(l: nat) | Enter | Leave

  function Initial(n: nat): Sys {
    Sys(seq(n, _ => Cpu(InThread, None)), seq(n, _ => None), None)
  }

  /** The next positions of CPU c out of n. `masked` says that code in thread context takes queue
      locks with interrupts off; otherwise a tick may arrive while such a lock is held, and the thread that
      holds it goes on when the CPU comes back to it. */
  predicate Moves(masked: bool, n: nat, c: nat, was: Cpu, now: Cpu) {
    if Interrupted(was, now) then !masked
    else if Resumed(was, now) then true
    else
      && now.under == was.under
      && match was.pc
         case InThread => now.pc.WantPush? || now.pc.WantPick? || (now.pc.WantAdd? && now.pc.queue < n)
         case WantAdd(q) => now.pc == Adding(q)
         case Adding(q) => now.pc.InThread?
         case WantPush => now.pc.Pushing?
         case Pushing => now.pc.WantPick?
         case WantPick => now.pc == Scanning(0) || now.pc.Picked?
         case Scanning(i) => if i >= n then now.pc.Picked? else now.pc == Scanning(i + 1) || (i != c && now.pc == Stealing(i))
         case Stealing(i) => now.pc == Scanning(i + 1) || now.pc.Picked?
         case Picked => now.pc.Deciding?
         case Deciding => now.pc.InThread? || now.pc == Balancing(0)
         case Balancing(k) => if k >= n / 2 then now.pc.InThread? else now.pc.WantFirst? && now.pc.pair == k && TwoOf(n, now.pc.first, now.pc.second)
         case WantFirst(k, a, b) => now.pc == WantSecond(k, a, b)
         case WantSecond(k, a, b) => now.pc == Moving(k, a, b)
         case Moving(k, a, b) => now.pc == HalfDone(k, b)
         case HalfDone(k, b) => now.pc == Balancing(k + 1)
  }

  predicate Interrupted(was: Cpu, now: Cpu) {
    was.pc.Adding? && was.under.None? && now == Cpu(WantPush, Some(was.pc.queue))
  }

  predicate Resumed(was: Cpu, now: Cpu) {
    was.pc.InThread? && was.under.Some? && now == Cpu(Adding(was.under.value), None)
  }

  predicate TwoOf(n: nat, a: nat, b: nat) {
    a < n && b < n && a != b
  }

  /** What the move from `was` to `now` does to the locks. */
  function EffectOf(c: nat, was: Cpu, now: Cpu): Effect {
    match was.pc
    case InThread => Nothing
    case WantAdd(q) => Take(q)
    case Adding(q) => if Interrupted(was, now) then Nothing else Drop(q)
    case WantPush => Take(c)
    case Pushing => Drop(c)
    case WantPick => Take(c)
    case Scanning(i) => if now.pc.Stealing? then Take(i) else Nothing
    case Stealing(i) => Drop(i)
    case Picked => Drop(c)
    case Deciding => if now.pc.Balancing? then Enter else Nothing
    case Balancing(_) => if now.pc.InThread? then Leave else Nothing
    case WantFirst(_, a, _) => Take(a)
    case WantSecond(_, _, b) => Take(b)
    case Moving(_, a, _) => Drop(a)
    case HalfDone(_, b) => Drop(b)
  }

  /** A compare-and-swap succeeds only on a free lock. */
  predicate Allows(s: Sys, e: Effect) {
    && (e.Take? ==> e.l < |s.locks| && s.locks[e.l].None?)
    && (e.Drop? ==> e.l < |s.locks|)
    && (e.Enter? ==> s.balance.None?)
  }

  function Apply(s: Sys, c: nat, e: Effect, cpu: Cpu): Sys
    requires c < |s.cpus| && Allows(s, e)
  {
    Sys(s.cpus[c := cpu],
        if e.Take? then s.locks[e.l := Some(c)] else if e.Drop? then s.locks[e.l := None] else s.locks,
        if e.Enter? then Some(c) else if e.Leave? then None else s.balance)
  }

  /** CPU c can move to `now`. */
  predicate Can(masked: bool, s: Sys, c: nat, now: Cpu) {
    && c < |s.cpus|
    && Moves(masked, |s.cpus|, c, s.cpus[c], now)
    && Allows(s, EffectOf(c, s.cpus[c], now))
  }

  function Act(masked: bool, s: Sys, c: nat, now: Cpu): Sys
    requires Can(masked, s, c, now)
  {
    Apply(s, c, EffectOf(c, s.cpus[c], now), now)
  }

  /** The states of n CPUs after k actions, in any order. */
  ghost predicate Reachable(masked: bool, n: nat, k: nat, s: Sys) {
    if k == 0 then s == Initial(n)
    else exists before, c, now :: Reachable(masked, n, k - 1, before) && Can(masked, before, c, now) && s == Act(masked, before, c, now)
  }

  // ----- who holds and who waits -----

  /** The queue locks CPU c holds, by where it is, and the one that a preempted thread of its holds. */
  predicate PcHolds(c: nat, pc: Pc, l: nat) {
    || (l == c && (pc.Pushing? || pc.Scanning? || pc.Stealing? || pc.Picked?))
    || (pc.Adding? && l == pc.queue)
    || (pc.Stealing? && l == pc.from)
    || ((pc.WantSecond? || pc.Moving?) && l == pc.first)
    || ((pc.Moving? || pc.HalfDone?) && l == pc.second)
  }

  predicate Holds(c: nat, cpu: Cpu, l: nat) {
    PcHolds(c, cpu.pc, l) || cpu.under == Some(l)
  }

  predicate InBalance(pc: Pc) {
    pc.Balancing? || pc.WantFirst? || pc.WantSecond? || pc.Moving? || pc.HalfDone?
  }

  /** The queue lock CPU c spins on, if any. */
  function SpinsOn(c: nat, cpu: Cpu): Option<nat> {
    match cpu.pc
    case WantAdd(q) => Some(q)
    case WantPush => Some(c)
    case WantPick => Some(c)
    case WantFirst(_, a, _) => Some(a)
    case WantSecond(_, _, b) => Some(b)
    case _ => None
  }

  /** CPU c spins on a lock that CPU d has taken. */
  predicate WaitsFor(s: Sys, c: nat, d: nat) {
    && c < |s.cpus|
    && var l := SpinsOn(c, s.cpus[c]); l.Some? && l.value < |s.locks| && s.locks[l.value] == Some(d)
  }

  /** A round of CPUs, each waiting for the next. */
  predicate Cycle(s: Sys, round: seq<nat>) {
    |round| > 0 && forall i :: 0 <= i < |round| ==> WaitsFor(s, round[i], After(round, i))
  }

  function After(round: seq<nat>, i: nat): nat
    requires i < |round|
  {
    round[(i + 1) % |round|]
  }

  // ----- the invariant -----

  predicate PcOk(masked: bool, n: nat, c: nat, cpu: Cpu) {
    && (cpu.under.Some? ==> !masked && cpu.under.value < n && !PcHolds(c, cpu.pc, cpu.under.value))
    && (cpu.pc.WantAdd? || cpu.pc.Adding? ==> cpu.pc.queue < n)
    && (cpu.pc.Scanning? ==> cpu.pc.next <= n)
    && (cpu.pc.Stealing? ==> TwoOf(n, c, cpu.pc.from))
    && (cpu.pc.Balancing? ==> cpu.pc.pair <= n / 2)
    && (cpu.pc.WantFirst? || cpu.pc.WantSecond? || cpu.pc.Moving? ==> TwoOf(n, cpu.pc.first, cpu.pc.second) && cpu.pc.pair < n / 2)
    && (cpu.pc.HalfDone? ==> cpu.pc.second < n && cpu.pc.pair < n / 2)
  }

  /** A lock's owner is exactly the CPU whose position says it holds it. */
  predicate Inv(masked: bool, s: Sys) {
    && |s.locks| == |s.cpus|
    && (forall c :: 0 <= c < |s.cpus| ==> PcOk(masked, |s.cpus|, c, s.cpus[c]))
    && (forall c, l :: 0 <= c < |s.cpus| && 0 <= l < |s.locks| ==> (s.locks[l] == Some(c) <==> Holds(c, s.cpus[c], l)))
    && (forall l :: 0 <= l < |s.locks| && s.locks[l].Some? ==> s.locks[l].value < |s.cpus|)
    && (forall c :: 0 <= c < |s.cpus| ==> (s.balance == Some(c) <==> InBalance(s.cpus[c].pc)))
  }

  /** The effect agrees with the change of position. */
  ghost predicate Fits(c: nat, was: Cpu, e: Effect, now: Cpu) {
    && (forall l: nat :: Holds(c, now, l) <==> ((Holds(c, was, l) && e != Drop(l)) || e == Take(l)))
    && (e.Drop? ==> Holds(c, was, e.l))
    && (InBalance(now.pc) <==> ((InBalance(was.pc) && !e.Leave?) || e.Enter?))
    && (e.Leave? ==> InBalance(was.pc))
  }

  /** Only a lock that is not held can be taken. */
  lemma MoveFits(masked: bool, n: nat, c: nat, was: Cpu, now: Cpu)
    requires c < n && PcOk(masked, n, c, was) && Moves(masked, n, c, was, now)
    requires var e := EffectOf(c, was, now); e.Take? ==> !Holds(c, was, e.l)
    ensures Fits(c, was, EffectOf(c, was, now), now) && PcOk(masked, n, c, now)
  {
  }

  lemma ApplyKeeps(masked: bool, s: Sys, c: nat, e: Effect, cpu: Cpu)
    requires Inv(masked, s) && c < |s.cpus| && PcOk(masked, |s.cpus|, c, cpu)
    requires Allows(s, e) && Fits(c, s.cpus[c], e, cpu)
    ensures Inv(masked, Apply(s, c, e, cpu))
  {
    hide PcOk, Holds, InBalance;
    var s' := Apply(s, c, e, cpu);
    forall d, l | 0 <= d < |s'.cpus| && 0 <= l < |s'.locks|
      ensures s'.locks[l] == Some(d) <==> Holds(d, s'.cpus[d], l)
    {
      assert s.locks[l] == Some(c) <==> Holds(c, s.cpus[c], l);
      assert s.locks[l] == Some(d) <==> Holds(d, s.cpus[d], l);
    }
  }

  lemma ActKeeps(masked: bool, s: Sys, c: nat, now: Cpu)
    requires Inv(masked, s) && Can(masked, s, c, now)
    ensures Inv(masked, Act(masked, s, c, now))
  {
    hide Fits, Moves, EffectOf;
    var was := s.cpus[c];
    var e := EffectOf(c, was, now);
    assert PcOk(masked, |s.cpus|, c, was);
    assert e.Take? ==> !Holds(c, was, e.l);  // a lock it holds is not free
    MoveFits(masked, |s.cpus|, c, was, now);
    ApplyKeeps(masked, s, c, e, now);
  }

  lemma {:induction false} ReachableInv(masked: bool, n: nat, k: nat, s: Sys)
    requires Reachable(masked, n, k, s)
    ensures Inv(masked, s) && |s.cpus| == n
  {
    hide Inv, Moves, EffectOf;
    if k == 0 {
      InitialInv(masked, n);
    } else {
      var before, c, now :| Reachable(masked, n, k - 1, before) && Can(masked, before, c, now) && s == Act(masked, before, c, now);
      ReachableInv(masked, n, k - 1, before);
      ActKeeps(masked, before, c, now);
    }
  }

  lemma InitialInv(masked: bool, n: nat)
    ensures Inv(masked, Initial(n)) && |Initial(n).cpus| == n
  {
  }

  /** A queue's contents are touched by one CPU at a time, interrupts on or off. */
  lemma MutualExclusion(masked: bool, n: nat, k: nat, s: Sys, c: nat, d: nat, l: nat)
    requires Reachable(masked, n, k, s) && c < n && d < n && l < n && |s.cpus| == n
    requires Holds(c, s.cpus[c], l) && Holds(d, s.cpus[d], l)
    ensures c == d
  {
    ReachableInv(masked, n, k, s);
    assert s.locks[l] == Some(c) && s.locks[l] == Some(d);
  }

  // ----- waiting -----

  /** With interrupts off, a CPU that spins on one queue lock while it holds another is the balancer
      after its first lock of a pair, so there is at most one. */
  lemma OnlyBalancerHoldsAndWaits(n: nat, k: nat, s: Sys, c: nat, d: nat, l: nat, m: nat)
    requires Reachable(true, n, k, s)
    requires c < n && d < n && l < n && m < n && |s.cpus| == |s.locks| == n
    requires SpinsOn(c, s.cpus[c]).Some? && s.locks[l] == Some(c)
    requires SpinsOn(d, s.cpus[d]).Some? && s.locks[m] == Some(d)
    ensures c == d && s.balance == Some(c) && s.cpus[c].pc.WantSecond? && s.cpus[c].pc.first == l
  {
    ReachableInv(true, n, k, s);
    HoldsAndWaits(s, c, l);
    HoldsAndWaits(s, d, m);
  }

  lemma HoldsAndWaits(s: Sys, c: nat, l: nat)
    requires Inv(true, s)
    requires c < |s.cpus| && l < |s.locks| && SpinsOn(c, s.cpus[c]).Some? && s.locks[l] == Some(c)
    ensures s.balance == Some(c) && s.cpus[c].pc.WantSecond? && s.cpus[c].pc.first == l
  {
    assert PcOk(true, |s.cpus|, c, s.cpus[c]);
    assert Holds(c, s.cpus[c], l);
  }

  /** The same when a wait is known by who waits. */
  lemma WaitedForWaits(s: Sys, b: nat, c: nat)
    requires Inv(true, s) && WaitsFor(s, b, c) && c < |s.cpus| && SpinsOn(c, s.cpus[c]).Some?
    ensures s.balance == Some(c) && s.cpus[c].pc.WantSecond? && !WaitsFor(s, c, c)
  {
    assert PcOk(true, |s.cpus|, c, s.cpus[c]);
    HoldsAndWaits(s, c, SpinsOn(b, s.cpus[b]).value);
    if WaitsFor(s, c, c) {
      HoldsAndWaits(s, c, SpinsOn(c, s.cpus[c]).value);
    }
  }

  lemma NoCycle(s: Sys, round: seq<nat>)
    requires Inv(true, s)
    ensures !Cycle(s, round)
  {
    if Cycle(s, round) {
      var k := |round|;
      var c, d := round[0], round[1 % k];
      assert WaitsFor(s, c, d) && d == After(round, 0);
      assert WaitsFor(s, round[k - 1], c) && c == After(round, k - 1);
      WaitedForWaits(s, round[k - 1], c);
      assert WaitsFor(s, d, After(round, 1 % k));
      WaitedForWaits(s, c, d);
    }
  }

  /** One CPU that is interrupted while it adds a thread waits for itself. */
  lemma UnmaskedCycle(n: nat) returns (s: Sys)
    requires n > 0
    ensures Reachable(false, n, 3, s) && Cycle(s, [0])
  {
    var s0 := Initial(n);
    var add := Cpu(WantAdd(0), None);
    var s1 := Act(false, s0, 0, add);
    assert Reachable(false, n, 0, s0) && Can(false, s0, 0, add);
    assert Reachable(false, n, 1, s1);
    var adding := Cpu(Adding(0), None);
    var s2 := Act(false, s1, 0, adding);
    assert Can(false, s1, 0, adding);
    assert Reachable(false, n, 2, s2);
    var tick := Cpu(WantPush, Some(0));
    s := Act(false, s2, 0, tick);
    assert Can(false, s2, 0, tick);
    assert WaitsFor(s, 0, 0);
  }

  /** Some run of the CPUs ends in a cycle of waits. */
  ghost predicate CanDeadlock(masked: bool, n: nat) {
    exists k, s, round :: Reachable(masked, n, k, s) && Cycle(s, round)
  }

  /** The handlers, switchNext and balance never deadlock; code in thread context that takes a queue
      lock with interrupts on is exactly what spoils it. */
  lemma DeadlockExactly(masked: bool, n: nat)
    requires n > 0
    ensures CanDeadlock(masked, n) <==> !masked
  {
    if CanDeadlock(masked, n) && masked {
      var k, s, round :| Reachable(masked, n, k, s) && Cycle(s, round);
      ReachableInv(masked, n, k, s);
      NoCycle(s, round);
    }
    if !masked {
      var s := UnmaskedCycle(n);
    }
  }

  // ----- progress -----

  predicate Spins(s: Sys, c: nat)
    requires c < |s.cpus|
  {
    SpinsOn(c, s.cpus[c]).Some?
  }

  /** A CPU that spins on nothing can act. */
  lemma MoverMoves(masked: bool, s: Sys, c: nat) returns (now: Cpu)
    requires Inv(masked, s) && c < |s.cpus| && (Spins(s, c) ==> s.locks[SpinsOn(c, s.cpus[c]).value].None?)
    ensures Can(masked, s, c, now)
  {
    var cpu := s.cpus[c];
    assert PcOk(masked, |s.cpus|, c, cpu);
    now := cpu.(pc := match cpu.pc
                      case InThread => WantPush
                      case WantAdd(q) => Adding(q)
                      case Adding(q) => InThread
                      case WantPush => Pushing
                      case Pushing => WantPick
                      case WantPick => Picked
                      case Scanning(i) => if i >= |s.cpus| then Picked else Scanning(i + 1)
                      case Stealing(i) => Picked
                      case Picked => Deciding
                      case Deciding => InThread
                      case Balancing(k) => if k >= |s.cpus| / 2 then InThread else WantFirst(k, 0, 1)
                      case WantFirst(k, a, b) => WantSecond(k, a, b)
                      case WantSecond(k, a, b) => Moving(k, a, b)
                      case Moving(k, a, b) => HalfDone(k, b)
                      case HalfDone(k, b) => Balancing(k + 1));
  }

  ghost predicate Unblocked(s: Sys, c: nat) {
    exists now :: Can(true, s, c, now)
  }

  ghost predicate WaitsForMover(s: Sys, c: nat) {
    exists d: nat :: WaitsFor(s, c, d) && Unblocked(s, d)
  }

  /** With interrupts off every CPU can act, or waits for one that can, or waits for the balancer
      which waits for one that can. */
  lemma WaitsAreShort(n: nat, k: nat, s: Sys, c: nat)
    requires Reachable(true, n, k, s) && c < n
    ensures Unblocked(s, c) || WaitsForMover(s, c) || (s.balance.Some? && WaitsFor(s, c, s.balance.value) && WaitsForMover(s, s.balance.value))
  {
    ReachableInv(true, n, k, s);
    if !Unblocked(s, c) {
      var d := Blocker(s, c);
      if !Unblocked(s, d) {
        var e := Blocker(s, d);
        WaitedForWaits(s, c, d);
        if !Unblocked(s, e) {
          var _ := Blocker(s, e);
          WaitedForWaits(s, d, e);
        }
      }
    }
  }

  /** A CPU that cannot act waits for another. */
  lemma Blocker(s: Sys, c: nat) returns (d: nat)
    requires Inv(true, s) && c < |s.cpus| && !Unblocked(s, c)
    ensures d < |s.cpus| && WaitsFor(s, c, d) && Spins(s, c)
  {
    hide Moves, EffectOf, Allows, Holds;
    assert PcOk(true, |s.cpus|, c, s.cpus[c]);
    if !Spins(s, c) || s.locks[SpinsOn(c, s.cpus[c]).value].None? {
      var now := MoverMoves(true, s, c);
    }
    d := s.locks[SpinsOn(c, s.cpus[c]).value].value;
  }

  /** How many actions are left before the CPU is back in its thread. */
  function Left(n: nat, pc: Pc): int {
    match pc
    case InThread => 0
    case WantAdd(_) => 2
    case Adding(_) => 1
    case WantPush => 5 * (n / 2) + 2 * n + 7
    case Pushing => 5 * (n / 2) + 2 * n + 6
    case WantPick => 5 * (n / 2) + 2 * n + 5
    case Scanning(i) => 5 * (n / 2) + 2 * (n - i) + 4
    case Stealing(i) => 5 * (n / 2) + 2 * (n - i) + 3
    case Picked => 5 * (n / 2) + 3
    case Deciding => 5 * (n / 2) + 2
    case Balancing(k) => 5 * (n / 2 - k) + 1
    case WantFirst(k, _, _) => 5 * (n / 2 - k)
    case WantSecond(k, _, _) => 5 * (n / 2 - k) - 1
    case Moving(k, _, _) => 5 * (n / 2 - k) - 2
    case HalfDone(k, _) => 5 * (n / 2 - k) - 3
  }

  lemma LeftShrinks(n: nat, c: nat, was: Cpu, now: Cpu)
    requires c < n && PcOk(true, n, c, was) && Moves(true, n, c, was, now)
    ensures 0 <= Left(n, was.pc) <= 5 * (n / 2) + 2 * n + 7
    ensures !was.pc.InThread? ==> Left(n, now.pc) < Left(n, was.pc)
  {
  }

  /** Outside its thread a CPU comes nearer to it with each of its own actions: a handler takes at most
      5 * (n / 2) + 2 * n + 7 of them. That bounds what a CPU does with the locks; it says neither
      that a spinning CPU is ever served nor that the pop loop inside an action ends. */
  lemma BoundedActions(n: nat, k: nat, s: Sys, c: nat, now: Cpu)
    requires Reachable(true, n, k, s) && Can(true, s, c, now)
    ensures 0 <= Left(n, s.cpus[c].pc) <= 5 * (n / 2) + 2 * n + 7
    ensures !s.cpus[c].pc.InThread? ==> Left(n, now.pc) < Left(n, s.cpus[c].pc)
  {
    hide Left;
    ReachableInv(true, n, k, s);
    LeftShrinks(n, c, s.cpus[c], now);
  }
}

/** Two runs from the initial state of two or more CPUs, with every destroyer thread alive: in one the
    assert of switchTo fails, in the other a pop loop never ends. All they take is a tryLock that fails. */
module IdleRace {
  import opened Common
  import opened Balance
  import opened Picking
  import opened Scheduling
  import opened Scheduler
  import opened OneProcessor
  import opened TwoActors

  // ----- starting -----

  /** CPU 0 was given a thread before it started, as the kernel's main function does; the first k CPUs have started. */
  function Booting(n: nat, k: nat): (cpus: seq<Cpu>)
    requires n >= 2
    ensures |cpus| == n
  {
    seq(n, j requires 0 <= j < n =>
      if j == 0 then (if k == 0 then Cpu([1, 2 * n], Some(0), 0, [], false) else Cpu([2 * n], Some(1), 0, [], true))
      else if j < k then RestCpu(j) else InitialCpu(j))
  }

  lemma BootAdded(n: nat)
    requires n >= 2
    ensures var s := Initial(n);
      && |s.cpus| == n && Enabled(s, AddThread(0, 2 * n)) && Added(s, 0, 2 * n).cpus == Booting(n, 0)
      && Added(s, 0, 2 * n).tick == 0 && forall t: Tid :: t in Added(s, 0, 2 * n).threads ==> t < 2 * n + 1
  {
    hide Idles;
    assert [DestroyerOf(0)] + [2 * n] == [1, 2 * n];
  }

  lemma BootAdds(n: nat) returns (s: State)
    requires n >= 2
    ensures At(n, s, Booting(n, 0), 2 * n + 1, 99)
  {
    hide Inv, Enabled, JustActed, Booting, Initial, Added;
    var s0 := Initial(n);
    InitialInv(n);
    assert Reaches(s0, [], s0);
    assert ReachesFrom(n, [], s0) && Tied([]);
    BootAdded(n);
    ReachStep(n, s0, AddThread(0, 2 * n));
    s := Step(s0, AddThread(0, 2 * n)).state;
  }

  lemma {:induction false} Boots(n: nat, k: nat) returns (s: State)
    requires n >= 2 && k <= n
    ensures At(n, s, Booting(n, k), 2 * n + 1, 99)
  {
    hide Inv, Idles, Reachable, Becomes, JustActed;
    if k == 0 {
      s := BootAdds(n);
    } else {
      var c := k - 1;
      var t := Boots(n, c);
      StartStep(t, c, FREE);
      StartedBoot(n, c);
      s := Quiet(n, t, Start(c, FREE), Booting(n, k), 2 * n + 1, 99);
    }
  }

  lemma StartedBoot(n: nat, c: nat)
    requires n >= 2 && c < n
    ensures var cpus := Booting(n, c); cpus[c].queue != [] && cpus[c := StartCpu(cpus[c])] == Booting(n, c + 1)
  {
    var x, y := Booting(n, c)[c], Booting(n, c + 1)[c];
    assert c == 0 ==> x.queue[1..] == y.queue;
    assert c > 0 ==> x.queue[1..] == [];
    assert StartCpu(x) == y;
  }

  // ----- the two CPUs at each stage -----

  // Threads 0 and 2 are the idle threads of CPUs 0 and 1, threads 1 and 3 their destroyers; the others are
  // numbered from 2 * n on.

  function BootX(n: nat): Cpu {
    Cpu([2 * n], Some(1), 0, [], true)
  }

  function AloneY(): Cpu {
    Cpu([], Some(3), 2, [], true)
  }

  /** After the first balancing. */
  function SharedX(n: nat): Cpu {
    var a: nat := 2 * n;
    Cpu([a + 2, a + 3], Some(a), 0, [], true)
  }

  function SharedY(n: nat): Cpu {
    Cpu([1, 2 * n + 1], Some(3), 2, [], true)
  }

  /** CPU 0 is idle for the first time. */
  function Dead(n: nat): seq<Tid> {
    var a: nat := 2 * n;
    [a, a + 2, a + 3]
  }

  function IdleX(n: nat): Cpu {
    Cpu([], Some(0), 0, Dead(n), true)
  }

  function TurnedY(n: nat): Cpu {
    Cpu([2 * n + 1, 3], Some(1), 2, [], true)
  }

  /** After the second balancing. */
  function WorkX(n: nat): Cpu {
    Cpu([1, 2 * n + 4], Some(0), 0, Dead(n), true)
  }

  function WorkY(n: nat): Cpu {
    var a: nat := 2 * n;
    Cpu([a + 5, a + 1], Some(3), 2, [], true)
  }

  function LeftY(n: nat): Cpu {
    var a: nat := 2 * n;
    Cpu([], Some(3), 2, [a + 5, a + 1], true)
  }

  function QueuedX(n: nat): Cpu {
    var a: nat := 2 * n;
    Cpu([0, 1, a + 6, a + 7], Some(a + 4), 0, Dead(n), true)
  }

  /** Before the exit that fails. */
  function FailX(n: nat): Cpu {
    var a: nat := 2 * n;
    Cpu([], Some(a + 7), 0, Dead(n) + [a + 4, a + 6], true)
  }

  function FailY(n: nat): Cpu {
    LeftY(n).(queue := [1, 3], current := Some(0))
  }

  function FourX(n: nat): Cpu {
    var a: nat := 2 * n;
    Cpu([0, 1, a + 6, a + 7, a + 8, a + 9], Some(a + 4), 0, Dead(n), true)
  }

  function HalfX(n: nat): Cpu {
    var a: nat := 2 * n;
    Cpu([a + 7, a + 8, a + 9, a + 4, 0, 1], Some(a + 6), 0, Dead(n), true)
  }

  function TurnedX(n: nat): Cpu {
    var a: nat := 2 * n;
    Cpu([a + 4, 0, 1, a + 6, a + 7, a + 8], Some(a + 9), 0, Dead(n), true)
  }

  /** CPU 0 is idle again, its idle thread queued on CPU 1 too. */
  function TwiceX(n: nat): Cpu {
    var a: nat := 2 * n;
    Cpu([], Some(0), 0, Dead(n) + [a + 9, a + 6, a + 7, a + 8], true)
  }

  function TwiceY(n: nat): Cpu {
    var a: nat := 2 * n;
    Cpu([a + 4, 0, 1], Some(3), 2, [a + 1], true)
  }

  /** Before the exit that never leaves the pop loop. */
  function LoopX(n: nat): Cpu {
    TwiceX(n).(queue := [0], current := Some(2 * n + 4))
  }

  function LoopY(n: nat): Cpu {
    TwiceY(n).(queue := [1, 3], current := Some(0))
  }

  // ----- a run to a failed assert -----

  lemma Booted(n: nat) returns (s: State)
    requires n >= 2
    ensures At(n, s, Machine(n, BootX(n), AloneY()), 2 * n + 1, 99)
  {
    hide At;
    s := Boots(n, n);
    assert Booting(n, n) == Machine(n, BootX(n), AloneY());
  }

  lemma FirstTurn(n: nat) returns (s': State)
    requires n >= 2
    ensures At(n, s', Machine(n, TickCpu(BootX(n)), AloneY()), 2 * n + 1, 99)
  {
    hide At, Machine, Even;
    var s := Booted(n);
    var x := BootX(n);
    assert (x.queue + [1])[1..] == [1];
    EvenPair(n, TickCpu(x), AloneY());
    s' := TickAt(n, s, x, AloneY(), 2 * n + 1, 99, 0);
  }

  lemma SharesFacts(n: nat)
    requires n >= 2
    ensures var x0, y0 := TickCpu(BootX(n)), AloneY();
      var x1 := MoreCpu(x0, 2 * n + 1);
      var x2 := MoreCpu(x1, 2 * n + 2);
      var x3 := MoreCpu(x2, 2 * n + 3);
      var x4, y1 := Giver(x3), Taker(y0, x3);
      && Actors(x0, y0) && CanAdd(n, x0)
      && Actors(x1, y0) && CanAdd(n, x1)
      && Actors(x2, y0) && CanAdd(n, x2)
      && Actors(x3, y0) && CanBalance(n, y0, x3)
      && x4 == SharedX(n) && y1 == SharedY(n)
  {
    var a: nat := 2 * n;
    var x0, y0 := TickCpu(BootX(n)), AloneY();
    var x1 := MoreCpu(x0, 2 * n + 1);
    assert x1 == Cpu([1, a + 1], Some(a), 0, [], true) by { assert x0.queue + [a + 1] == [1, a + 1]; }
    var x2 := MoreCpu(x1, 2 * n + 2);
    assert x2 == Cpu([1, a + 1, a + 2], Some(a), 0, [], true) by { assert x1.queue + [a + 2] == [1, a + 1, a + 2]; }
    var x3 := MoreCpu(x2, 2 * n + 3);
    assert x3 == Cpu([1, a + 1, a + 2, a + 3], Some(a), 0, [], true) by { assert x2.queue + [a + 3] == [1, a + 1, a + 2, a + 3]; }
    var x4, y1 := Giver(x3), Taker(y0, x3);
    assert y1 == Cpu([1, a + 1], Some(3), 2, [], true) by { assert x3.queue[..2] == [1, a + 1]; }
    assert x4 == Cpu([a + 2, a + 3], Some(a), 0, [], true) by { assert x3.queue[2..] == [a + 2, a + 3]; }
  }

  /** CPU 0 makes three threads, and balancing takes its destroyer and one of them to CPU 1. */
  lemma Shares(n: nat) returns (s': State)
    requires n >= 2
    ensures At(n, s', Machine(n, SharedX(n), SharedY(n)), 2 * n + 4, 0)
  {
    hide *;
    SharesFacts(n);
    var x0, y0 := TickCpu(BootX(n)), AloneY();
    var x1 := MoreCpu(x0, 2 * n + 1);
    var x2 := MoreCpu(x1, 2 * n + 2);
    var x3 := MoreCpu(x2, 2 * n + 3);
    var x4, y1 := Giver(x3), Taker(y0, x3);
    var s := FirstTurn(n);
    var s1 := AddAt(n, s, x0, y0, 2 * n + 1, 99, 0);
    var s2 := AddAt(n, s1, x1, y0, 2 * n + 2, 99, 0);
    var s3 := AddAt(n, s2, x2, y0, 2 * n + 3, 99, 0);
    s' := BalanceAt(n, s3, x3, y0, 2 * n + 4, 1);
  }

  lemma FallsIdleFacts(n: nat)
    requires n >= 2
    ensures var x0, y0 := SharedX(n), SharedY(n);
      var x1 := ExitCpu(x0);
      var x2 := ExitCpu(x1);
      var y1 := TickCpu(y0);
      var x3 := IdleCpu(x2);
      && Actors(x0, y0) && CanExit(n, x0, y0)
      && Actors(x1, y0) && CanExit(n, x1, y0)
      && Actors(x2, y0) && CanTick(n, y0, x2)
      && Actors(x2, y1) && CanIdle(n, x2, y1)
      && x3 == IdleX(n) && y1 == TurnedY(n)
  {
    var a: nat := 2 * n;
    var x0, y0 := SharedX(n), SharedY(n);
    var x1 := ExitCpu(x0);
    assert x1 == Cpu([a + 3], Some(a + 2), 0, [a], true) by { assert x0.queue[1..] == [a + 3] && x0.destroy + [a] == [a]; }
    var x2 := ExitCpu(x1);
    assert x2 == Cpu([], Some(a + 3), 0, [a, a + 2], true) by { assert x1.queue[1..] == [] && x1.destroy + [a + 2] == [a, a + 2]; }
    var y1 := TickCpu(y0);
    assert y1 == Cpu([a + 1, 3], Some(1), 2, [], true) by { assert (y0.queue + [3])[1..] == [a + 1, 3]; }
    var x3 := IdleCpu(x2);
    assert x3 == Cpu([], Some(0), 0, [a, a + 2, a + 3], true) by { assert x2.destroy + [a + 3] == [a, a + 2, a + 3]; }
  }

  /** CPU 0 comes to its last thread, and that exits while a tick of CPU 1 holds CPU 1's queue. */
  lemma FallsIdle(n: nat, s: State) returns (s': State)
    requires n >= 2 && At(n, s, Machine(n, SharedX(n), SharedY(n)), 2 * n + 4, 0)
    ensures At(n, s', Machine(n, IdleX(n), TurnedY(n)), 2 * n + 4, 3)
  {
    hide *;
    FallsIdleFacts(n);
    var x0, y0 := SharedX(n), SharedY(n);
    var x1 := ExitCpu(x0);
    var x2 := ExitCpu(x1);
    var y1 := TickCpu(y0);
    var x3 := IdleCpu(x2);
    var s1 := ExitAt(n, s, x0, y0, 2 * n + 4, 0, 0);
    var s2 := ExitAt(n, s1, x1, y0, 2 * n + 4, 1, 0);
    var s3 := TickAt(n, s2, x2, y0, 2 * n + 4, 2, 1);
    s' := IdleAt(n, s3, x2, y1, 2 * n + 4, 3);
  }

  lemma GetsWorkFacts(n: nat)
    requires n >= 2
    ensures var x0, y0 := IdleX(n), TurnedY(n);
      var y1 := TickCpu(y0);
      var y2 := MoreCpu(y1, 2 * n + 4);
      var y3 := MoreCpu(y2, 2 * n + 5);
      var y4 := TickCpu(y3);
      var x1, y5 := Taker(x0, y4), Giver(y4);
      && Actors(x0, y0) && CanTick(n, y0, x0)
      && Actors(x0, y1) && CanAdd(n, y1)
      && Actors(x0, y2) && CanAdd(n, y2)
      && Actors(x0, y3) && CanTick(n, y3, x0)
      && Actors(x0, y4) && CanBalance(n, x0, y4)
      && x1 == WorkX(n) && y5 == WorkY(n)
  {
    var a: nat := 2 * n;
    var x0, y0 := IdleX(n), TurnedY(n);
    var y1 := TickCpu(y0);
    assert y1 == Cpu([3, 1], Some(a + 1), 2, [], true) by { assert (y0.queue + [1])[1..] == [3, 1]; }
    var y2 := MoreCpu(y1, 2 * n + 4);
    assert y2 == Cpu([3, 1, a + 4], Some(a + 1), 2, [], true) by { assert y1.queue + [a + 4] == [3, 1, a + 4]; }
    var y3 := MoreCpu(y2, 2 * n + 5);
    assert y3 == Cpu([3, 1, a + 4, a + 5], Some(a + 1), 2, [], true) by { assert y2.queue + [a + 5] == [3, 1, a + 4, a + 5]; }
    var y4 := TickCpu(y3);
    assert y4 == Cpu([1, a + 4, a + 5, a + 1], Some(3), 2, [], true) by { assert (y3.queue + [a + 1])[1..] == [1, a + 4, a + 5, a + 1]; }
    var x1, y5 := Taker(x0, y4), Giver(y4);
    assert x1 == Cpu([1, a + 4], Some(0), 0, [a, a + 2, a + 3], true) by { assert y4.queue[..2] == [1, a + 4]; }
    assert y5 == Cpu([a + 5, a + 1], Some(3), 2, [], true) by { assert y4.queue[2..] == [a + 5, a + 1]; }
  }

  /** A thread of CPU 1 makes two more, and balancing gives CPU 0 its destroyer and one of them. */
  lemma GetsWork(n: nat, s: State) returns (s': State)
    requires n >= 2 && At(n, s, Machine(n, IdleX(n), TurnedY(n)), 2 * n + 4, 3)
    ensures At(n, s', Machine(n, WorkX(n), WorkY(n)), 2 * n + 6, 0)
  {
    hide *;
    GetsWorkFacts(n);
    var x0, y0 := IdleX(n), TurnedY(n);
    var y1 := TickCpu(y0);
    var y2 := MoreCpu(y1, 2 * n + 4);
    var y3 := MoreCpu(y2, 2 * n + 5);
    var y4 := TickCpu(y3);
    var x1, y5 := Taker(x0, y4), Giver(y4);
    var s1 := TickAt(n, s, x0, y0, 2 * n + 4, 3, 1);
    var s2 := AddAt(n, s1, x0, y1, 2 * n + 4, 4, 1);
    var s3 := AddAt(n, s2, x0, y2, 2 * n + 5, 4, 1);
    var s4 := TickAt(n, s3, x0, y3, 2 * n + 6, 4, 1);
    Looser(n, s4, Machine(n, x0, y4), 2 * n + 6, 5);
    s' := BalanceAt(n, s4, x0, y4, 2 * n + 6, 0);
  }

  lemma LeavesFacts(n: nat)
    requires n >= 2
    ensures var x0, y0 := WorkX(n), WorkY(n);
      var y1 := TickCpu(y0);
      var y2 := ExitCpu(y1);
      var y3 := ExitCpu(y2);
      && Actors(x0, y0) && CanTick(n, y0, x0)
      && Actors(x0, y1) && CanExit(n, y1, x0)
      && Actors(x0, y2) && CanExit(n, y2, x0)
      && x0 == WorkX(n) && y3 == LeftY(n)
  {
    var a: nat := 2 * n;
    var x0, y0 := WorkX(n), WorkY(n);
    var y1 := TickCpu(y0);
    assert y1 == Cpu([a + 1, 3], Some(a + 5), 2, [], true) by { assert (y0.queue + [3])[1..] == [a + 1, 3]; }
    var y2 := ExitCpu(y1);
    assert y2 == Cpu([3], Some(a + 1), 2, [a + 5], true) by { assert y1.queue[1..] == [3] && y1.destroy + [a + 5] == [a + 5]; }
    var y3 := ExitCpu(y2);
    assert y3 == Cpu([], Some(3), 2, [a + 5, a + 1], true) by { assert y2.queue[1..] == [] && y2.destroy + [a + 1] == [a + 5, a + 1]; }
  }

  /** The threads left on CPU 1 exit. */
  lemma Leaves(n: nat, s: State) returns (s': State)
    requires n >= 2 && At(n, s, Machine(n, WorkX(n), WorkY(n)), 2 * n + 6, 0)
    ensures At(n, s', Machine(n, WorkX(n), LeftY(n)), 2 * n + 6, 3)
  {
    hide *;
    LeavesFacts(n);
    var x0, y0 := WorkX(n), WorkY(n);
    var y1 := TickCpu(y0);
    var y2 := ExitCpu(y1);
    var y3 := ExitCpu(y2);
    var s1 := TickAt(n, s, x0, y0, 2 * n + 6, 0, 1);
    var s2 := ExitAt(n, s1, x0, y1, 2 * n + 6, 1, 1);
    s' := ExitAt(n, s2, x0, y2, 2 * n + 6, 2, 1);
  }

  lemma QueuesIdleFacts(n: nat)
    requires n >= 2
    ensures var x0, y0 := WorkX(n), LeftY(n);
      var x1 := TickCpu(x0);
      var x2 := TickCpu(x1);
      var x3 := MoreCpu(x2, 2 * n + 6);
      var x4 := MoreCpu(x3, 2 * n + 7);
      && Actors(x0, y0) && CanTick(n, x0, y0)
      && Actors(x1, y0) && CanTick(n, x1, y0)
      && Actors(x2, y0) && CanAdd(n, x2)
      && Actors(x3, y0) && CanAdd(n, x3)
      && x4 == QueuedX(n) && y0 == LeftY(n)
  {
    var a: nat := 2 * n;
    var x0, y0 := WorkX(n), LeftY(n);
    var x1 := TickCpu(x0);
    assert x1 == Cpu([a + 4, 0], Some(1), 0, [a, a + 2, a + 3], true) by { assert (x0.queue + [0])[1..] == [a + 4, 0]; }
    var x2 := TickCpu(x1);
    assert x2 == Cpu([0, 1], Some(a + 4), 0, [a, a + 2, a + 3], true) by { assert (x1.queue + [1])[1..] == [0, 1]; }
    var x3 := MoreCpu(x2, 2 * n + 6);
    assert x3 == Cpu([0, 1, a + 6], Some(a + 4), 0, [a, a + 2, a + 3], true) by { assert x2.queue + [a + 6] == [0, 1, a + 6]; }
    var x4 := MoreCpu(x3, 2 * n + 7);
    assert x4 == Cpu([0, 1, a + 6, a + 7], Some(a + 4), 0, [a, a + 2, a + 3], true) by { assert x3.queue + [a + 7] == [0, 1, a + 6, a + 7]; }
  }

  /** The new thread of CPU 0 runs, with the idle thread queued before two more. */
  lemma QueuesIdle(n: nat, s: State) returns (s': State)
    requires n >= 2 && At(n, s, Machine(n, WorkX(n), LeftY(n)), 2 * n + 6, 3)
    ensures At(n, s', Machine(n, QueuedX(n), LeftY(n)), 2 * n + 8, 5)
  {
    hide *;
    QueuesIdleFacts(n);
    var x0, y0 := WorkX(n), LeftY(n);
    var x1 := TickCpu(x0);
    var x2 := TickCpu(x1);
    var x3 := MoreCpu(x2, 2 * n + 6);
    var x4 := MoreCpu(x3, 2 * n + 7);
    var s1 := TickAt(n, s, x0, y0, 2 * n + 6, 3, 0);
    var s2 := TickAt(n, s1, x1, y0, 2 * n + 6, 4, 0);
    var s3 := AddAt(n, s2, x2, y0, 2 * n + 6, 5, 0);
    s' := AddAt(n, s3, x3, y0, 2 * n + 7, 5, 0);
  }

  lemma LosesIdleFacts(n: nat)
    requires n >= 2
    ensures var x0, y0 := QueuedX(n), LeftY(n);
      var x1, y1 := Giver(x0), Taker(y0, x0);
      var x2 := ExitCpu(x1);
      var x3 := ExitCpu(x2);
      var y2 := TickCpu(y1);
      && Actors(x0, y0) && CanBalance(n, y0, x0)
      && Actors(x1, y1) && CanExit(n, x1, y1)
      && Actors(x2, y1) && CanExit(n, x2, y1)
      && Actors(x3, y1) && CanTick(n, y1, x3)
      && x3 == FailX(n) && y2 == FailY(n)
  {
    var a: nat := 2 * n;
    var x0, y0 := QueuedX(n), LeftY(n);
    var x1, y1 := Giver(x0), Taker(y0, x0);
    assert y1 == Cpu([0, 1], Some(3), 2, [a + 5, a + 1], true) by { assert x0.queue[..2] == [0, 1]; }
    assert x1 == Cpu([a + 6, a + 7], Some(a + 4), 0, [a, a + 2, a + 3], true) by { assert x0.queue[2..] == [a + 6, a + 7]; }
    var x2 := ExitCpu(x1);
    assert x2 == Cpu([a + 7], Some(a + 6), 0, [a, a + 2, a + 3, a + 4], true) by { assert x1.queue[1..] == [a + 7] && x1.destroy + [a + 4] == [a, a + 2, a + 3, a + 4]; }
    var x3 := ExitCpu(x2);
    assert x3 == Cpu([], Some(a + 7), 0, [a, a + 2, a + 3, a + 4, a + 6], true) by { assert x2.queue[1..] == [] && x2.destroy + [a + 6] == [a, a + 2, a + 3, a + 4, a + 6]; }
    var y2 := TickCpu(y1);
    assert y2 == Cpu([1, 3], Some(0), 2, [a + 5, a + 1], true) by { assert (y1.queue + [3])[1..] == [1, 3]; }
  }

  /** Balancing takes CPU 0's idle thread to CPU 1; CPU 0 comes to its last thread, and then a tick of CPU 1
      pops the idle thread. */
  lemma LosesIdle(n: nat, s: State) returns (s': State)
    requires n >= 2 && At(n, s, Machine(n, QueuedX(n), LeftY(n)), 2 * n + 8, 5)
    ensures At(n, s', Machine(n, FailX(n), FailY(n)), 2 * n + 8, 3) && JustActed(n, s', 1)
  {
    hide *;
    LosesIdleFacts(n);
    var x0, y0 := QueuedX(n), LeftY(n);
    var x1, y1 := Giver(x0), Taker(y0, x0);
    var x2 := ExitCpu(x1);
    var x3 := ExitCpu(x2);
    var y2 := TickCpu(y1);
    Looser(n, s, Machine(n, x0, y0), 2 * n + 8, 5);
    var s1 := BalanceAt(n, s, x0, y0, 2 * n + 8, 1);
    var s2 := ExitAt(n, s1, x1, y1, 2 * n + 8, 0, 0);
    var s3 := ExitAt(n, s2, x2, y1, 2 * n + 8, 1, 0);
    s' := TickAt(n, s3, x3, y1, 2 * n + 8, 2, 1);
  }

  /** A run that is tied throughout and fails at its last event. */
  ghost predicate Fails(n: nat, es: seq<Event>, s: State, e: Event) {
    ReachesFrom(n, es, s) && Inv(s, -1) && Enabled(s, e) && Step(s, e).AssertFails?
  }

  ghost predicate Loops(n: nat, es: seq<Event>, s: State, e: Event) {
    ReachesFrom(n, es, s) && Inv(s, -1) && Enabled(s, e) && Step(s, e).LoopsForever?
  }

  /** From the initial state of n CPUs, all destroyer threads alive: the last thread of CPU 0 exits while
      CPU 1 is in the tick in which it goes over to CPU 0's idle thread. */
  lemma FailingRun(n: nat) returns (es: seq<Event>, s: State, e: Event)
    requires n >= 2
    ensures Fails(n, es, s, e) && Tied(es + [e]) && Staffed(s, Destroyers(n))
  {
    hide At, Machine, Inv, Step, Destroyers, Idles, Staffed, ReachesFrom, Tied, FailX, FailY, HeldBy;
    var s0 := Shares(n);
    var s1 := FallsIdle(n, s0);
    var s2 := GetsWork(n, s1);
    var s3 := Leaves(n, s2);
    var s4 := QueuesIdle(n, s3);
    s := LosesIdle(n, s4);
    e := Exit(0, Held({1}, false));
    FailShape(n);
    FailsThere(n, s, FailX(n), FailY(n), 2 * n + 8, 3);
    DestroyersAlive(n, s, FailX(n), FailY(n), 2 * n + 8, 3);
    es :| ReachesFrom(n, es, s) && Tied(es) && es != [] && es[|es| - 1].cpu == 1;
    assert HeldBy(e) == {1} by { HoldsOne(); }
    TiedOn(es, e);
  }

  lemma HoldsOne()
    ensures HeldBy(Exit(0, Held({1}, false))) == {1} && HeldBy(Exit(0, FREE)) == {}
  {
  }

  lemma FailShape(n: nat)
    requires n >= 2
    ensures var x, y := FailX(n), FailY(n);
      Actors(x, y) && x.queue == [] && x.current.value >= 2 * n && y.current == Some(0) && y.queue == [1, 3]
    ensures var x, y := LoopX(n), LoopY(n);
      Actors(x, y) && x.queue == [0] && x.current.value >= 2 * n && y.current == Some(0) && y.queue == [1, 3]
  {
  }

  lemma FailsThere(n: nat, s: State, x: Cpu, y: Cpu, m: nat, b: nat)
    requires n >= 2 && Actors(x, y) && At(n, s, Machine(n, x, y), m, b)
    requires x.queue == [] && x.current.value >= 2 * n && y.current == Some(0)
    ensures var e := Exit(0, Held({1}, false)); Inv(s, -1) && Enabled(s, e) && Step(s, e).AssertFails?
  {
    hide Inv, Step, Idles, Reachable;
    var e := Exit(0, Held({1}, false));
    MachineIdles(n, x, y, x.current.value);
    FailsExactly(s, e);
    CpuKnown(s, -1, 1);
  }

  lemma DestroyersAlive(n: nat, s: State, x: Cpu, y: Cpu, m: nat, b: nat)
    requires n >= 2 && Actors(x, y) && At(n, s, Machine(n, x, y), m, b) && y.queue == [1, 3]
    ensures Staffed(s, Destroyers(n))
  {
    hide Inv, Destroyers, Reachable, Machine;
    DestroyerCount(n);
    forall p | p in Destroyers(n) ensures p in s.live && p in s.threads && s.threads[p] != Killed {
      DestroyerNames(n, p);
      DestroyerAlive(n, s, x, y, p);
    }
  }

  lemma DestroyerAlive(n: nat, s: State, x: Cpu, y: Cpu, p: Tid)
    requires n >= 2 && Actors(x, y) && Inv(s, -1) && s.cpus == Machine(n, x, y) && y.queue == [1, 3] && p < 2 * n && p % 2 == 1
    ensures p in s.live && p in s.threads && s.threads[p] != Killed
  {
    hide Places, Home, Idles, IsCurrent;
    var k := if p <= 3 then 1 else p / 2;
    assert s.cpus[k] == if k == 1 then y else RestCpu(k);
    assert y.queue[0] == 1 && y.queue[1] == 3;
    assert p <= 3 ==> p in y.queue;
    CpuKnown(s, -1, k);
    QueuedAtHome(p, s.cpus[k]);
    HomeInPlaces(s.cpus, k);
    OddNotIdle(n, x, y, p);
  }

  lemma OddNotIdle(n: nat, x: Cpu, y: Cpu, p: Tid)
    requires n >= 2 && Actors(x, y) && p % 2 == 1
    ensures p !in Idles(Machine(n, x, y))
  {
  }

  // ----- a run to a pop loop that never ends -----

  lemma MakesFourFacts(n: nat)
    requires n >= 2
    ensures var x0, y0 := QueuedX(n), LeftY(n);
      var x1 := MoreCpu(x0, 2 * n + 8);
      var x2 := MoreCpu(x1, 2 * n + 9);
      && Actors(x0, y0) && CanAdd(n, x0)
      && Actors(x1, y0) && CanAdd(n, x1)
      && x2 == FourX(n) && y0 == LeftY(n)
  {
    var a: nat := 2 * n;
    var x0, y0 := QueuedX(n), LeftY(n);
    var x1 := MoreCpu(x0, 2 * n + 8);
    assert x1 == Cpu([0, 1, a + 6, a + 7, a + 8], Some(a + 4), 0, [a, a + 2, a + 3], true) by { assert x0.queue + [a + 8] == [0, 1, a + 6, a + 7, a + 8]; }
    var x2 := MoreCpu(x1, 2 * n + 9);
    assert x2 == Cpu([0, 1, a + 6, a + 7, a + 8, a + 9], Some(a + 4), 0, [a, a + 2, a + 3], true) by { assert x1.queue + [a + 9] == [0, 1, a + 6, a + 7, a + 8, a + 9]; }
  }

  /** The thread of CPU 0 makes two more. */
  lemma MakesFour(n: nat, s: State) returns (s': State)
    requires n >= 2 && At(n, s, Machine(n, QueuedX(n), LeftY(n)), 2 * n + 8, 5)
    ensures At(n, s', Machine(n, FourX(n), LeftY(n)), 2 * n + 10, 5)
  {
    hide *;
    MakesFourFacts(n);
    var x0, y0 := QueuedX(n), LeftY(n);
    var x1 := MoreCpu(x0, 2 * n + 8);
    var x2 := MoreCpu(x1, 2 * n + 9);
    var s1 := AddAt(n, s, x0, y0, 2 * n + 8, 5, 0);
    s' := AddAt(n, s1, x1, y0, 2 * n + 9, 5, 0);
  }

  lemma TurnsHalfFacts(n: nat)
    requires n >= 2
    ensures var x0, y0 := FourX(n), LeftY(n);
      var x1 := TickCpu(x0);
      var x2 := TickCpu(x1);
      var x3 := TickCpu(x2);
      && Actors(x0, y0) && CanTick(n, x0, y0)
      && Actors(x1, y0) && CanTick(n, x1, y0)
      && Actors(x2, y0) && CanTick(n, x2, y0)
      && x3 == HalfX(n) && y0 == LeftY(n)
  {
    var a: nat := 2 * n;
    var x0, y0 := FourX(n), LeftY(n);
    var x1 := TickCpu(x0);
    assert x1 == Cpu([1, a + 6, a + 7, a + 8, a + 9, a + 4], Some(0), 0, [a, a + 2, a + 3], true) by { assert (x0.queue + [a + 4])[1..] == [1, a + 6, a + 7, a + 8, a + 9, a + 4]; }
    var x2 := TickCpu(x1);
    assert x2 == Cpu([a + 6, a + 7, a + 8, a + 9, a + 4, 0], Some(1), 0, [a, a + 2, a + 3], true) by { assert (x1.queue + [0])[1..] == [a + 6, a + 7, a + 8, a + 9, a + 4, 0]; }
    var x3 := TickCpu(x2);
    assert x3 == Cpu([a + 7, a + 8, a + 9, a + 4, 0, 1], Some(a + 6), 0, [a, a + 2, a + 3], true) by { assert (x2.queue + [1])[1..] == [a + 7, a + 8, a + 9, a + 4, 0, 1]; }
  }

  /** They take turns. */
  lemma TurnsHalf(n: nat, s: State) returns (s': State)
    requires n >= 2 && At(n, s, Machine(n, FourX(n), LeftY(n)), 2 * n + 10, 5)
    ensures At(n, s', Machine(n, HalfX(n), LeftY(n)), 2 * n + 10, 8)
  {
    hide *;
    TurnsHalfFacts(n);
    var x0, y0 := FourX(n), LeftY(n);
    var x1 := TickCpu(x0);
    var x2 := TickCpu(x1);
    var x3 := TickCpu(x2);
    var s1 := TickAt(n, s, x0, y0, 2 * n + 10, 5, 0);
    var s2 := TickAt(n, s1, x1, y0, 2 * n + 10, 6, 0);
    s' := TickAt(n, s2, x2, y0, 2 * n + 10, 7, 0);
  }

  lemma TurnsRestFacts(n: nat)
    requires n >= 2
    ensures var x0, y0 := HalfX(n), LeftY(n);
      var x1 := TickCpu(x0);
      var x2 := TickCpu(x1);
      var x3 := TickCpu(x2);
      && Actors(x0, y0) && CanTick(n, x0, y0)
      && Actors(x1, y0) && CanTick(n, x1, y0)
      && Actors(x2, y0) && CanTick(n, x2, y0)
      && x3 == TurnedX(n) && y0 == LeftY(n)
  {
    var a: nat := 2 * n;
    var x0, y0 := HalfX(n), LeftY(n);
    var x1 := TickCpu(x0);
    assert x1 == Cpu([a + 8, a + 9, a + 4, 0, 1, a + 6], Some(a + 7), 0, [a, a + 2, a + 3], true) by { assert (x0.queue + [a + 6])[1..] == [a + 8, a + 9, a + 4, 0, 1, a + 6]; }
    var x2 := TickCpu(x1);
    assert x2 == Cpu([a + 9, a + 4, 0, 1, a + 6, a + 7], Some(a + 8), 0, [a, a + 2, a + 3], true) by { assert (x1.queue + [a + 7])[1..] == [a + 9, a + 4, 0, 1, a + 6, a + 7]; }
    var x3 := TickCpu(x2);
    assert x3 == Cpu([a + 4, 0, 1, a + 6, a + 7, a + 8], Some(a + 9), 0, [a, a + 2, a + 3], true) by { assert (x2.queue + [a + 8])[1..] == [a + 4, 0, 1, a + 6, a + 7, a + 8]; }
  }

  /** They go on taking turns. */
  lemma TurnsRest(n: nat, s: State) returns (s': State)
    requires n >= 2 && At(n, s, Machine(n, HalfX(n), LeftY(n)), 2 * n + 10, 8)
    ensures At(n, s', Machine(n, TurnedX(n), LeftY(n)), 2 * n + 10, 11)
  {
    hide *;
    TurnsRestFacts(n);
    var x0, y0 := HalfX(n), LeftY(n);
    var x1 := TickCpu(x0);
    var x2 := TickCpu(x1);
    var x3 := TickCpu(x2);
    var s1 := TickAt(n, s, x0, y0, 2 * n + 10, 8, 0);
    var s2 := TickAt(n, s1, x1, y0, 2 * n + 10, 9, 0);
    s' := TickAt(n, s2, x2, y0, 2 * n + 10, 10, 0);
  }

  lemma RunsTwiceFacts(n: nat)
    requires n >= 2
    ensures var x0, y0 := TurnedX(n), LeftY(n);
      var x1, y1 := Giver(x0), Taker(y0, x0);
      var x2 := ExitCpu(x1);
      var x3 := ExitCpu(x2);
      var x4 := ExitCpu(x3);
      var y2 := ReapedCpu(y1);
      var x5 := IdleCpu(x4);
      && Actors(x0, y0) && CanBalance(n, y0, x0)
      && Actors(x1, y1) && CanExit(n, x1, y1)
      && Actors(x2, y1) && CanExit(n, x2, y1)
      && Actors(x3, y1) && CanExit(n, x3, y1)
      && Actors(x4, y1) && y1.destroy != []
      && Actors(x4, y2) && CanIdle(n, x4, y2)
      && x5 == TwiceX(n) && y2 == TwiceY(n)
  {
    var a: nat := 2 * n;
    var x0, y0 := TurnedX(n), LeftY(n);
    var x1, y1 := Giver(x0), Taker(y0, x0);
    assert y1 == Cpu([a + 4, 0, 1], Some(3), 2, [a + 5, a + 1], true) by { assert x0.queue[..3] == [a + 4, 0, 1]; }
    assert x1 == Cpu([a + 6, a + 7, a + 8], Some(a + 9), 0, [a, a + 2, a + 3], true) by { assert x0.queue[3..] == [a + 6, a + 7, a + 8]; }
    var x2 := ExitCpu(x1);
    assert x2 == Cpu([a + 7, a + 8], Some(a + 6), 0, [a, a + 2, a + 3, a + 9], true) by { assert x1.queue[1..] == [a + 7, a + 8] && x1.destroy + [a + 9] == [a, a + 2, a + 3, a + 9]; }
    var x3 := ExitCpu(x2);
    assert x3 == Cpu([a + 8], Some(a + 7), 0, [a, a + 2, a + 3, a + 9, a + 6], true) by { assert x2.queue[1..] == [a + 8] && x2.destroy + [a + 6] == [a, a + 2, a + 3, a + 9, a + 6]; }
    var x4 := ExitCpu(x3);
    assert x4 == Cpu([], Some(a + 8), 0, [a, a + 2, a + 3, a + 9, a + 6, a + 7], true) by { assert x3.queue[1..] == [] && x3.destroy + [a + 7] == [a, a + 2, a + 3, a + 9, a + 6, a + 7]; }
    var y2 := ReapedCpu(y1);
    assert y2 == Cpu([a + 4, 0, 1], Some(3), 2, [a + 1], true) by { assert y1.destroy[1..] == [a + 1]; }
    var x5 := IdleCpu(x4);
    assert x5 == Cpu([], Some(0), 0, [a, a + 2, a + 3, a + 9, a + 6, a + 7, a + 8], true) by { assert x4.destroy + [a + 8] == [a, a + 2, a + 3, a + 9, a + 6, a + 7, a + 8]; }
  }

  /** Balancing takes one thread, the idle thread and the destroyer to CPU 1; the rest exit, the last while the
      destroyer on CPU 1 holds CPU 1's queue. The idle thread then runs on CPU 0 and is queued on CPU 1. */
  lemma RunsTwice(n: nat, s: State) returns (s': State)
    requires n >= 2 && At(n, s, Machine(n, TurnedX(n), LeftY(n)), 2 * n + 10, 11)
    ensures At(n, s', Machine(n, TwiceX(n), TwiceY(n)), 2 * n + 10, 3)
  {
    hide *;
    RunsTwiceFacts(n);
    var x0, y0 := TurnedX(n), LeftY(n);
    var x1, y1 := Giver(x0), Taker(y0, x0);
    var x2 := ExitCpu(x1);
    var x3 := ExitCpu(x2);
    var x4 := ExitCpu(x3);
    var y2 := ReapedCpu(y1);
    var x5 := IdleCpu(x4);
    Looser(n, s, Machine(n, x0, y0), 2 * n + 10, 11);
    var s1 := BalanceAt(n, s, x0, y0, 2 * n + 10, 1);
    var s2 := ExitAt(n, s1, x1, y1, 2 * n + 10, 0, 0);
    var s3 := ExitAt(n, s2, x2, y1, 2 * n + 10, 1, 0);
    var s4 := ExitAt(n, s3, x3, y1, 2 * n + 10, 2, 0);
    var s5 := ReapAt(n, s4, x4, y1, 2 * n + 10, 3);
    s' := IdleAt(n, s5, x4, y2, 2 * n + 10, 3);
  }

  lemma QueuesRunningFacts(n: nat)
    requires n >= 2
    ensures var x0, y0 := TwiceX(n), TwiceY(n);
      var x1, y1 := Taker(x0, y0), Giver(y0);
      var x2 := TickCpu(x1);
      var y2 := TickCpu(y1);
      && Actors(x0, y0) && CanBalance(n, x0, y0)
      && Actors(x1, y1) && CanTick(n, x1, y1)
      && Actors(x2, y1) && CanTick(n, y1, x2)
      && x2 == LoopX(n) && y2 == LoopY(n)
  {
    var a: nat := 2 * n;
    var x0, y0 := TwiceX(n), TwiceY(n);
    var x1, y1 := Taker(x0, y0), Giver(y0);
    assert x1 == Cpu([a + 4], Some(0), 0, [a, a + 2, a + 3, a + 9, a + 6, a + 7, a + 8], true) by { assert y0.queue[..1] == [a + 4]; }
    assert y1 == Cpu([0, 1], Some(3), 2, [a + 1], true) by { assert y0.queue[1..] == [0, 1]; }
    var x2 := TickCpu(x1);
    assert x2 == Cpu([0], Some(a + 4), 0, [a, a + 2, a + 3, a + 9, a + 6, a + 7, a + 8], true) by { assert (x1.queue + [0])[1..] == [0]; }
    var y2 := TickCpu(y1);
    assert y2 == Cpu([1, 3], Some(0), 2, [a + 1], true) by { assert (y1.queue + [3])[1..] == [1, 3]; }
  }

  /** Balancing gives CPU 0 the thread, behind which it queues its idle thread; CPU 1 then runs its own copy. */
  lemma QueuesRunning(n: nat, s: State) returns (s': State)
    requires n >= 2 && At(n, s, Machine(n, TwiceX(n), TwiceY(n)), 2 * n + 10, 3)
    ensures At(n, s', Machine(n, LoopX(n), LoopY(n)), 2 * n + 10, 2)
  {
    hide *;
    QueuesRunningFacts(n);
    var x0, y0 := TwiceX(n), TwiceY(n);
    var x1, y1 := Taker(x0, y0), Giver(y0);
    var x2 := TickCpu(x1);
    var y2 := TickCpu(y1);
    Looser(n, s, Machine(n, x0, y0), 2 * n + 10, 3);
    var s1 := BalanceAt(n, s, x0, y0, 2 * n + 10, 0);
    var s2 := TickAt(n, s1, x1, y1, 2 * n + 10, 0, 0);
    s' := TickAt(n, s2, x2, y1, 2 * n + 10, 1, 1);
  }

  /** From the initial state of n CPUs, all destroyer threads alive: CPU 0 exits a thread with nothing in its
      queue but its idle thread, which CPU 1 is running. */
  lemma LoopingRun(n: nat) returns (es: seq<Event>, s: State, e: Event)
    requires n >= 2
    ensures Loops(n, es, s, e) && Tied(es + [e]) && Staffed(s, Destroyers(n))
  {
    hide At, Machine, Inv, Step, Destroyers, Idles, Staffed, ReachesFrom, Tied, LoopX, LoopY, HeldBy;
    var s0 := Shares(n);
    var s1 := FallsIdle(n, s0);
    var s2 := GetsWork(n, s1);
    var s3 := Leaves(n, s2);
    var s3' := QueuesIdle(n, s3);
    var s4 := MakesFour(n, s3');
    var s5 := TurnsHalf(n, s4);
    var s6 := TurnsRest(n, s5);
    var s7 := RunsTwice(n, s6);
    s := QueuesRunning(n, s7);
    e := Exit(0, FREE);
    FailShape(n);
    LoopsThere(n, s, LoopX(n), LoopY(n), 2 * n + 10, 2);
    DestroyersAlive(n, s, LoopX(n), LoopY(n), 2 * n + 10, 2);
    es :| ReachesFrom(n, es, s) && Tied(es);
    HoldsOne();
    TiedOn(es, e);
  }

  lemma LoopsThere(n: nat, s: State, x: Cpu, y: Cpu, m: nat, b: nat)
    requires n >= 2 && Actors(x, y) && At(n, s, Machine(n, x, y), m, b)
    requires x.queue == [0] && x.current.value >= 2 * n && y.current == Some(0)
    ensures var e := Exit(0, FREE); Reachable(n, s) && Inv(s, -1) && Enabled(s, e) && Step(s, e).LoopsForever?
  {
    hide Inv, Step, Idles, Reachable;
    var e := Exit(0, FREE);
    MachineIdles(n, x, y, x.current.value);
    LoopsExactly(s, e);
    CpuKnown(s, -1, 1);
  }

  // ----- exactly when -----

  /** Some run from the initial state of n CPUs, tied if so asked, ends in a failed assert. */
  ghost predicate CanFail(n: nat, tied: bool) {
    exists es, s, e :: Fails(n, es, s, e) && (tied ==> Tied(es + [e]))
  }

  /** ... or in a pop loop that never ends. */
  ghost predicate CanLoop(n: nat, tied: bool) {
    exists es, s, e :: Loops(n, es, s, e) && (tied ==> Tied(es + [e]))
  }

  /** Both happen exactly on two CPUs or more, whether or not the holder of a held queue must be seen acting. */
  lemma FailsOnSeveral(n: nat, tied: bool)
    ensures CanFail(n, tied) <==> n >= 2
    ensures CanLoop(n, tied) <==> n >= 2
  {
    hide Inv, Step, Enabled, ReachesFrom, Tied;
    if n >= 2 {
      var es, s, e := FailingRun(n);
      assert CanFail(n, tied);
      var fs, t, f := LoopingRun(n);
      assert CanLoop(n, tied);
    } else {
      forall es, s, e | ReachesFrom(n, es, s) && Inv(s, -1) && Enabled(s, e) ensures Step(s, e).Ok? {
        SameCpus(n, es, s);
        FewNeverFail(n, s, e);
      }
    }
  }

  lemma FewNeverFail(n: nat, s: State, e: Event)
    requires n < 2 && Inv(s, -1) && |s.cpus| == n && Enabled(s, e)
    ensures Step(s, e).Ok?
  {
    hide Inv, Step;
    OneCpuNeverFails(s, e);
  }

  lemma SameCpus(n: nat, es: seq<Event>, s: State)
    requires ReachesFrom(n, es, s)
    ensures |s.cpus| == n
  {
    hide Inv, Initial;
    InitialInv(n);
    RunKeepsCount(Initial(n), es, s);
    assert |Initial(n).cpus| == n by { InitialCount(n); }
  }

  lemma InitialCount(n: nat)
    ensures |Initial(n).cpus| == n
  {
  }

  lemma {:induction false} RunKeepsCount(s: State, es: seq<Event>, s': State)
    requires Inv(s, -1) && Reaches(s, es, s')
    ensures |s'.cpus| == |s.cpus|
    decreases |es|
  {
    hide Inv, Step, Enabled;
    if es != [] {
      StepKeepsInv(s, es[0]);
      StepKeepsCount(s, es[0]);
      RunKeepsCount(Step(s, es[0]).state, es[1..], s');
    }
  }

  lemma StepKeepsCount(s: State, e: Event)
    requires Inv(s, -1) && Enabled(s, e)
    ensures Step(s, e).Ok? ==> |Step(s, e).state.cpus| == |s.cpus|
  {
    hide Inv, Idles, Balanced, FirstStopped, FirstQueued;
  }
}

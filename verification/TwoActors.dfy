/** Building runs of the scheduler a step at a time, when two CPUs act and the others run their destroyer
    threads. */
module TwoActors {
  import opened Common
  import opened Balance
  import opened Picking
  import opened Scheduling
  import opened Scheduler

  // ----- what one step does -----

  /** The thread at the front of a queue is nobody's current thread. */
  predicate FreeFront(cpus: seq<Cpu>, t: Tid) {
    forall d :: 0 <= d < |cpus| ==> cpus[d].current != Some(t)
  }

  lemma QueuedStopped(s: State, hole: int, c: nat, t: Tid)
    requires Inv(s, hole) && c < |s.cpus| && t in s.cpus[c].queue && FreeFront(s.cpus, t)
    ensures t in s.threads && s.threads[t] == Stopped
  {
    hide Places, Home, Idles;
    CpuKnown(s, hole, c);
  }

  function TakeFront(s: State, c: nat): State
    requires c < |s.cpus| && s.cpus[c].queue != []
  {
    var q := s.cpus[c].queue;
    s.(threads := s.threads[q[0] := Running], cpus := s.cpus[c := s.cpus[c].(queue := q[1..], current := Some(q[0]))])
  }

  lemma SwitchFront(s: State, c: nat, held: Held)
    requires Inv(s, c) && c < |s.cpus| && s.cpus[c].queue != [] && FreeFront(s.cpus, s.cpus[c].queue[0])
    ensures Queued(s) && s.cpus[c].idle in s.threads
    ensures SwitchNext(s, c, held) == Ok(Ticked(TakeFront(s, c), held.balance))
  {
    hide Inv, Ticked, FreeFront;
    var q := s.cpus[c].queue;
    InvQueued(s, c);
    QueuedStopped(s, c, c, q[0]);
    assert FirstStopped(q, s.threads) == 0 && Rotated(q, 0) == q[1..];
    assert Take(s, c, c) == TakeFront(s, c);
  }

  /** The CPU after a tick, and after the exit of its current thread. */
  function TickCpu(x: Cpu): Cpu {
    if x.current.None? then x
    else
      var q := x.queue + [x.current.value];
      x.(queue := q[1..], current := Some(q[0]))
  }

  function ExitCpu(x: Cpu): Cpu {
    if x.current.None? || x.queue == [] then x
    else x.(destroy := x.destroy + [x.current.value], queue := x.queue[1..], current := Some(x.queue[0]))
  }

  function StartCpu(x: Cpu): Cpu
    requires x.queue != []
  {
    x.(started := true, queue := x.queue[1..], current := Some(x.queue[0]))
  }

  /** What is left to know about a step from s: the CPUs, the balance tick, and that no thread is new. */
  ghost predicate Becomes(s: State, e: Event, cpus: seq<Cpu>, busy: bool)
    requires Inv(s, -1) && Enabled(s, e)
  {
    Step(s, e).Ok? && exists t: State :: t.cpus == cpus && t.tick == s.tick && t.threads.Keys <= s.threads.Keys && Step(s, e).state == Ticked(t, busy)
  }

  lemma TickStep(s: State, c: nat, held: Held)
    requires Inv(s, -1) && Runs(s, c)
    requires var x := s.cpus[c]; forall d :: 0 <= d < |s.cpus| && d != c ==> s.cpus[d].current != TickCpu(x).current
    ensures Becomes(s, Tick(c, held), s.cpus[c := TickCpu(s.cpus[c])], held.balance)
  {
    hide Inv, Ticked, SwitchNext;
    var s1 := Leave(s, c);
    LeaveKeeps(s, c);
    CpuKnown(s, -1, c);
    SwitchFront(s1, c, held);
    CpuKnown(s1, c, c);
    var t := TakeFront(s1, c);
    assert t.cpus == s.cpus[c := TickCpu(s.cpus[c])];
    assert s1.cpus[c].queue[0] in s1.cpus[c].queue;
    assert t.threads.Keys <= s.threads.Keys;
  }

  lemma ExitStep(s: State, c: nat, held: Held)
    requires Inv(s, -1) && Enabled(s, Exit(c, held)) && s.cpus[c].queue != []
    requires forall d :: 0 <= d < |s.cpus| && d != c ==> s.cpus[d].current != Some(s.cpus[c].queue[0])
    ensures Becomes(s, Exit(c, held), s.cpus[c := ExitCpu(s.cpus[c])], held.balance)
  {
    hide Inv, Ticked, SwitchNext, Idles;
    var s1 := Kill(s, c);
    KillKeeps(s, c);
    CpuKnown(s, -1, c);
    SwitchFront(s1, c, held);
    CpuKnown(s1, c, c);
    var t := TakeFront(s1, c);
    assert t.cpus == s.cpus[c := ExitCpu(s.cpus[c])];
    assert s1.cpus[c].queue[0] in s1.cpus[c].queue;
    assert t.threads.Keys <= s.threads.Keys;
  }

  lemma StartStep(s: State, c: nat, held: Held)
    requires Inv(s, -1) && Enabled(s, Start(c, held)) && s.cpus[c].queue != []
    requires forall d :: 0 <= d < |s.cpus| && d != c ==> s.cpus[d].current != Some(s.cpus[c].queue[0])
    ensures Becomes(s, Start(c, held), s.cpus[c := StartCpu(s.cpus[c])], held.balance)
  {
    hide Inv, Ticked, SwitchNext, Idles;
    var s1 := Park(s, c);
    ParkKeeps(s, c);
    SwitchFront(s1, c, held);
    CpuKnown(s1, c, c);
    var t := TakeFront(s1, c);
    assert t.cpus == s.cpus[c := StartCpu(s.cpus[c])];
    assert s1.cpus[c].queue[0] in s1.cpus[c].queue;
    assert t.threads.Keys <= s.threads.Keys;
  }

  function MoreCpu(x: Cpu, t: Tid): Cpu {
    x.(queue := x.queue + [t])
  }

  function ReapedCpu(x: Cpu): Cpu {
    if x.destroy == [] then x else x.(destroy := x.destroy[1..])
  }

  /** Balancing an empty queue with a long one: the taker and the giver. */
  function Taker(z: Cpu, o: Cpu): Cpu {
    z.(queue := o.queue[..|o.queue| / 2])
  }

  function Giver(o: Cpu): Cpu {
    o.(queue := o.queue[|o.queue| / 2..])
  }

  function IdleCpu(x: Cpu): Cpu {
    if x.current.None? then x
    else x.(destroy := x.destroy + [x.current.value], current := Some(x.idle))
  }

  /** An exit that gets hold of nothing falls to the idle thread. */
  lemma IdleStep(s: State, c: nat, held: Held)
    requires Inv(s, -1) && Enabled(s, Exit(c, held)) && Nothing(s.cpus, c, held.queues)
    requires FreeFront(s.cpus, s.cpus[c].idle)
    ensures Step(s, Exit(c, held)).Ok?
    ensures var s' := Step(s, Exit(c, held)).state;
      s'.cpus == s.cpus[c := IdleCpu(s.cpus[c])] && s'.tick == s.tick && s'.threads.Keys <= s.threads.Keys
  {
    hide Ticked, Idles, Places, Home;
    var s1 := Kill(s, c);
    KillKeeps(s, c);
    InvQueued(s1, c);
    CpuKnown(s, -1, c);
    CpuKnown(s1, c, c);
    SameSource(s.cpus, s1.cpus, c, held.queues);
    assert s1.threads[s.cpus[c].idle] == Stopped;
    assert RunIdle(s1, c).cpus == s.cpus[c := IdleCpu(s.cpus[c])];
  }

  // ----- reachable states -----

  ghost predicate ReachesFrom(n: nat, es: seq<Event>, s: State) {
    InitialInv(n);
    Reaches(Initial(n), es, s)
  }

  function HeldBy(e: Event): set<nat> {
    match e
    case AddThread(_, _) => {}
    case Reap(_) => {}
    case _ => e.held.queues
  }

  /** Whoever holds a queue that an event finds held owns the event just before it: the holder is inside its
      own handler, or in its destroyer's round, and the two overlap. */
  predicate Tied(es: seq<Event>) {
    forall i, d :: 0 <= i < |es| && d in HeldBy(es[i]) ==> i > 0 && es[i - 1].cpu == d != es[i].cpu
  }

  ghost predicate Reachable(n: nat, s: State) {
    exists es :: ReachesFrom(n, es, s) && Tied(es)
  }

  /** A tied run that ends with an event of CPU c leads to s. */
  ghost predicate JustActed(n: nat, s: State, c: nat) {
    exists es: seq<Event> :: ReachesFrom(n, es, s) && Tied(es) && es != [] && es[|es| - 1].cpu == c
  }

  lemma {:induction false} Extend(s0: State, es: seq<Event>, s: State, e: Event)
    requires Inv(s0, -1) && Reaches(s0, es, s) && Inv(s, -1) && Enabled(s, e) && Step(s, e).Ok?
    ensures Reaches(s0, es + [e], Step(s, e).state)
    decreases |es|
  {
    hide Inv, Step, Enabled;
    StepKeepsInv(s, e);
    if es == [] {
      assert (es + [e])[1..] == [];
      assert Reaches(Step(s, e).state, [], Step(s, e).state);
    } else {
      StepKeepsInv(s0, es[0]);
      Extend(Step(s0, es[0]).state, es[1..], s, e);
      assert (es + [e])[1..] == es[1..] + [e];
    }
  }

  lemma TiedOn(es: seq<Event>, e: Event)
    requires Tied(es) && (HeldBy(e) == {} || (es != [] && HeldBy(e) <= {es[|es| - 1].cpu} && es[|es| - 1].cpu != e.cpu))
    ensures Tied(es + [e])
  {
    hide HeldBy;
    var es' := es + [e];
    forall i, d | 0 <= i < |es'| && d in HeldBy(es'[i]) ensures i > 0 && es'[i - 1].cpu == d != es'[i].cpu {
      if i < |es| { assert es'[i] == es[i] && d in HeldBy(es[i]); }
    }
  }

  lemma ReachStep(n: nat, s: State, e: Event)
    requires Reachable(n, s) && Inv(s, -1) && Enabled(s, e) && Step(s, e).Ok? && HeldBy(e) == {}
    ensures Reachable(n, Step(s, e).state) && JustActed(n, Step(s, e).state, e.cpu) && Inv(Step(s, e).state, -1)
  {
    hide Inv, Step, Enabled, HeldBy, Tied;
    InitialInv(n);
    StepKeepsInv(s, e);
    var es :| ReachesFrom(n, es, s) && Tied(es);
    Extend(Initial(n), es, s, e);
    TiedOn(es, e);
    assert ReachesFrom(n, es + [e], Step(s, e).state);
  }

  /** The same for an event that finds the queue of the CPU held that has just acted. */
  lemma ReachHeld(n: nat, s: State, e: Event, c: nat)
    requires JustActed(n, s, c) && Inv(s, -1) && Enabled(s, e) && Step(s, e).Ok? && HeldBy(e) == {c} && c != e.cpu
    ensures Reachable(n, Step(s, e).state) && Inv(Step(s, e).state, -1)
  {
    hide Inv, Step, Enabled, HeldBy, Tied;
    InitialInv(n);
    StepKeepsInv(s, e);
    var es: seq<Event> :| ReachesFrom(n, es, s) && Tied(es) && es != [] && es[|es| - 1].cpu == c;
    Extend(Initial(n), es, s, e);
    TiedOn(es, e);
    assert ReachesFrom(n, es + [e], Step(s, e).state);
  }

  /** A reachable state with these CPUs, thread names below m, and a balance tick of at most b. */
  ghost predicate At(n: nat, s: State, cpus: seq<Cpu>, m: nat, b: nat) {
    && Reachable(n, s) && Inv(s, -1) && s.cpus == cpus && s.tick <= b < BALANCE_PERIOD
    && forall t: Tid :: t in s.threads ==> t < m
  }

  ghost predicate Even(cpus: seq<Cpu>) {
    forall i, j :: 0 <= i < |cpus| && 0 <= j < |cpus| ==> |cpus[i].queue| <= |cpus[j].queue| + 1
  }

  lemma EvenTicked(s: State)
    requires Even(s.cpus)
    ensures Rebalance(s) == s
  {
    hide Balanced;
    EvenStays(QueuesOf(s.cpus));
    assert WithQueues(s.cpus, QueuesOf(s.cpus)) == s.cpus;
  }

  /** A step with no balancing, or balancing that changes nothing. */
  lemma Quiet(n: nat, s: State, e: Event, cpus: seq<Cpu>, m: nat, b: nat) returns (s': State)
    requires At(n, s, s.cpus, m, b) && Enabled(s, e) && Becomes(s, e, cpus, false) && HeldBy(e) == {}
    requires b + 1 < BALANCE_PERIOD || Even(cpus)
    ensures At(n, s', cpus, m, if b + 1 < BALANCE_PERIOD then b + 1 else b) && JustActed(n, s', e.cpu)
    ensures s.tick + 1 < BALANCE_PERIOD ==> s'.tick == s.tick + 1
  {
    hide Inv, Step, Enabled, Rebalance, Reachable, Even, JustActed, HeldBy;
    s' := Step(s, e).state;
    ReachStep(n, s, e);
    var t: State :| t.cpus == cpus && t.tick == s.tick && t.threads.Keys <= s.threads.Keys && Step(s, e).state == Ticked(t, false);
    if s.tick + 1 >= BALANCE_PERIOD { EvenTicked(t.(tick := 0)); }
  }

  lemma LongTicked(s: State, lo: nat, hi: nat)
    requires OneLong(QueuesOf(s.cpus), lo, hi)
    ensures var q, k := s.cpus[hi].queue, |s.cpus[hi].queue| / 2;
      Rebalance(s).cpus == s.cpus[lo := s.cpus[lo].(queue := q[..k])][hi := s.cpus[hi].(queue := q[k..])]
  {
    hide Balanced;
    var q, k := s.cpus[hi].queue, |s.cpus[hi].queue| / 2;
    LongGivesHalf(QueuesOf(s.cpus), lo, hi);
    assert WithQueues(s.cpus, QueuesOf(s.cpus)[lo := q[..k]][hi := q[k..]]) == s.cpus[lo := s.cpus[lo].(queue := q[..k])][hi := s.cpus[hi].(queue := q[k..])];
  }

  /** A step with balancing, which moves half of the one long queue. */
  lemma Balances(n: nat, s: State, e: Event, cpus: seq<Cpu>, m: nat, lo: nat, hi: nat) returns (s': State)
    requires At(n, s, s.cpus, m, 99) && s.tick == 99 && Enabled(s, e) && Becomes(s, e, cpus, false) && HeldBy(e) == {} && OneLong(QueuesOf(cpus), lo, hi)
    ensures var q, k := cpus[hi].queue, |cpus[hi].queue| / 2;
      At(n, s', cpus[lo := cpus[lo].(queue := q[..k])][hi := cpus[hi].(queue := q[k..])], m, 0)
  {
    hide Inv, Step, Enabled, Rebalance, Reachable, JustActed, HeldBy;
    s' := Step(s, e).state;
    ReachStep(n, s, e);
    var t: State :| t.cpus == cpus && t.tick == s.tick && t.threads.Keys <= s.threads.Keys && Step(s, e).state == Ticked(t, false);
    LongTicked(t.(tick := 0), lo, hi);
    assert s'.tick == 0 && s'.threads == t.threads by { RebalanceRest(t.(tick := 0)); }
  }

  lemma RebalanceRest(s: State)
    ensures Rebalance(s).tick == s.tick && Rebalance(s).threads == s.threads
  {
    hide Balanced;
  }

  // ----- two CPUs act, the others run their destroyers -----

  function RestCpu(k: nat): Cpu {
    Cpu([], Some(DestroyerOf(k)), IdleOf(k), [], true)
  }

  function Machine(n: nat, x: Cpu, y: Cpu): (cpus: seq<Cpu>)
    ensures |cpus| == n
  {
    seq(n, k requires 0 <= k < n => if k == 0 then x else if k == 1 then y else RestCpu(k))
  }

  lemma Put(n: nat, x: Cpu, y: Cpu, c: nat, z: Cpu)
    requires c < 2 <= n
    ensures Machine(n, x, y)[c := z] == if c == 0 then Machine(n, z, y) else Machine(n, x, z)
  {
  }

  predicate Actors(x: Cpu, y: Cpu) {
    x.started && y.started && x.current.Some? && y.current.Some? && x.idle == IdleOf(0) && y.idle == IdleOf(1)
  }

  /** Not a name of the other CPUs. */
  predicate Ours(n: nat, t: Tid) {
    t < 4 || t >= 2 * n
  }

  lemma MachineIdles(n: nat, x: Cpu, y: Cpu, t: Tid)
    requires n >= 2 && Actors(x, y) && t >= 2 * n
    ensures t !in Idles(Machine(n, x, y))
  {
  }

  /** What the steps below ask of the CPU z that acts and of the other one, o. */
  predicate CanTick(n: nat, z: Cpu, o: Cpu) {
    z.current.Some? && Ours(n, TickCpu(z).current.value) && TickCpu(z).current != o.current
  }

  predicate CanExit(n: nat, z: Cpu, o: Cpu) {
    z.current.Some? && z.current.value >= 2 * n && z.queue != [] && Ours(n, z.queue[0]) && Some(z.queue[0]) != o.current
  }

  predicate CanAdd(n: nat, z: Cpu) {
    z.current.Some? && z.current.value >= 2 * n
  }

  predicate CanBalance(n: nat, z: Cpu, o: Cpu) {
    z.current.Some? && z.queue == [] && |o.queue| >= 2 && Ours(n, z.current.value) && z.current != o.current
  }

  predicate CanIdle(n: nat, x: Cpu, y: Cpu) {
    x.current.Some? && x.queue == [] && x.current.value >= 2 * n && y.current != Some(0)
  }

  function Mine(c: nat, x: Cpu, y: Cpu): Cpu {
    if c == 0 then x else y
  }

  lemma TickAt(n: nat, s: State, x: Cpu, y: Cpu, m: nat, b: nat, c: nat) returns (s': State)
    requires n >= 2 && c < 2 && Actors(x, y) && At(n, s, Machine(n, x, y), m, b) && (if c == 0 then CanTick(n, x, y) else CanTick(n, y, x))
    requires b < 99 || Even(if c == 0 then Machine(n, TickCpu(x), y) else Machine(n, x, TickCpu(y)))
    ensures At(n, s', if c == 0 then Machine(n, TickCpu(x), y) else Machine(n, x, TickCpu(y)), m, if b < 99 then b + 1 else b)
    ensures s.tick < 99 ==> s'.tick == s.tick + 1
    ensures JustActed(n, s', c)
  {
    hide Inv, Reachable, Becomes, Even, JustActed;
    var z := Mine(c, x, y);
    Put(n, x, y, c, TickCpu(z));
    TickStep(s, c, FREE);
    s' := Quiet(n, s, Tick(c, FREE), s.cpus[c := TickCpu(z)], m, b);
  }

  lemma ExitAt(n: nat, s: State, x: Cpu, y: Cpu, m: nat, b: nat, c: nat) returns (s': State)
    requires n >= 2 && c < 2 && Actors(x, y) && At(n, s, Machine(n, x, y), m, b) && b < 99 && (if c == 0 then CanExit(n, x, y) else CanExit(n, y, x))
    ensures At(n, s', if c == 0 then Machine(n, ExitCpu(x), y) else Machine(n, x, ExitCpu(y)), m, b + 1)
  {
    hide Inv, Reachable, Becomes, Even, Idles, JustActed;
    var z := Mine(c, x, y);
    Put(n, x, y, c, ExitCpu(z));
    MachineIdles(n, x, y, z.current.value);
    ExitStep(s, c, FREE);
    s' := Quiet(n, s, Exit(c, FREE), s.cpus[c := ExitCpu(z)], m, b);
  }

  lemma AddAt(n: nat, s: State, x: Cpu, y: Cpu, m: nat, b: nat, c: nat) returns (s': State)
    requires n >= 2 && c < 2 && Actors(x, y) && At(n, s, Machine(n, x, y), m, b) && (if c == 0 then CanAdd(n, x) else CanAdd(n, y))
    ensures At(n, s', if c == 0 then Machine(n, MoreCpu(x, m), y) else Machine(n, x, MoreCpu(y, m)), m + 1, b)
    ensures s'.tick == s.tick
  {
    hide Inv, Reachable, Idles, JustActed;
    var z := Mine(c, x, y);
    Put(n, x, y, c, MoreCpu(z, m));
    MachineIdles(n, x, y, z.current.value);
    ReachStep(n, s, AddThread(c, m));
    s' := Step(s, AddThread(c, m)).state;
  }

  /** A CPU alone with its thread ticks until balancing is due. */
  lemma {:induction false} PadAt(n: nat, s: State, x: Cpu, y: Cpu, m: nat, c: nat) returns (s': State)
    requires n >= 2 && c < 2 && Actors(x, y) && At(n, s, Machine(n, x, y), m, 99) && (if c == 0 then CanBalance(n, x, y) else CanBalance(n, y, x))
    ensures At(n, s', Machine(n, x, y), m, 99) && s'.tick == 99
    decreases 99 - s.tick
  {
    hide Inv, Reachable, Machine, JustActed;
    if s.tick == 99 {
      s' := s;
    } else {
      AloneTicks(Mine(c, x, y));
      var t := TickAt(n, s, x, y, m, s.tick, c);
      s' := PadAt(n, t, x, y, m, c);
    }
  }

  lemma AloneTicks(z: Cpu)
    requires z.queue == []
    ensures TickCpu(z) == z
  {
  }

  /** The tick on CPU c, alone with its thread, that moves half of the other's queue over. */
  lemma BalanceAt(n: nat, s: State, x: Cpu, y: Cpu, m: nat, c: nat) returns (s': State)
    requires n >= 2 && c < 2 && Actors(x, y) && At(n, s, Machine(n, x, y), m, 99) && (if c == 0 then CanBalance(n, x, y) else CanBalance(n, y, x))
    ensures At(n, s', if c == 0 then Machine(n, Taker(x, y), Giver(y)) else Machine(n, Giver(x), Taker(y, x)), m, 0)
  {
    hide Inv, Reachable, Becomes, JustActed;
    var z, o, hi := Mine(c, x, y), Mine(c, y, x), 1 - c;
    var t := PadAt(n, s, x, y, m, c);
    AloneTicks(z);
    TickStep(t, c, FREE);
    assert t.cpus[c := TickCpu(z)] == t.cpus;
    s' := Balances(n, t, Tick(c, FREE), t.cpus, m, c, hi);
    Put(n, x, y, c, Taker(z, o));
    if c == 0 {
      Put(n, Taker(x, y), y, hi, Giver(y));
    } else {
      Put(n, x, Taker(y, x), hi, Giver(x));
    }
  }

  /** A round of the destroyer on CPU 1. */
  lemma ReapAt(n: nat, s: State, x: Cpu, y: Cpu, m: nat, b: nat) returns (s': State)
    requires n >= 2 && Actors(x, y) && At(n, s, Machine(n, x, y), m, b) && y.destroy != []
    ensures At(n, s', Machine(n, x, ReapedCpu(y)), m, b) && JustActed(n, s', 1)
  {
    hide Inv, Reachable, Idles, JustActed;
    Put(n, x, y, 1, ReapedCpu(y));
    ReachStep(n, s, Reap(1));
    s' := Step(s, Reap(1)).state;
  }

  /** CPU 0 exits its last thread while CPU 1 holds its queue. */
  lemma IdleAt(n: nat, s: State, x: Cpu, y: Cpu, m: nat, b: nat) returns (s': State)
    requires n >= 2 && Actors(x, y) && At(n, s, Machine(n, x, y), m, b) && CanIdle(n, x, y) && JustActed(n, s, 1)
    ensures At(n, s', Machine(n, IdleCpu(x), y), m, b)
  {
    hide Inv, Reachable, Idles, JustActed;
    var held := Held({1}, false);
    Put(n, x, y, 0, IdleCpu(x));
    MachineIdles(n, x, y, x.current.value);
    IdleStep(s, 0, held);
    ReachHeld(n, s, Exit(0, held), 1);
    s' := Step(s, Exit(0, held)).state;
  }

  lemma Looser(n: nat, s: State, cpus: seq<Cpu>, m: nat, b: nat)
    requires At(n, s, cpus, m, b)
    ensures At(n, s, cpus, m, 99)
  {
  }

  lemma EvenPair(n: nat, x: Cpu, y: Cpu)
    requires n >= 2 && |x.queue| <= 1 && |y.queue| <= 1
    ensures Even(Machine(n, x, y))
  {
  }
}

/** The steps of the scheduler, what every run of them keeps, and when one fails. */
module Scheduler {
  import opened Common
  import opened Balance
  import opened Picking
  import opened Scheduling

  // ----- steps -----

  /** What the other CPUs hold when a step tries for it: run queues, and the balance lock. */
  datatype Held = Held(queues: set<nat>, balance: bool)

  const FREE := Held({}, false)

  /** The first CPU other than c, from place i on, whose queue is not held and not empty. */
  function FirstQueued(cpus: seq<Cpu>, c: nat, held: set<nat>, i: nat): (r: Option<nat>)
    ensures r.Some? ==> i <= r.value < |cpus| && r.value != c && r.value !in held && cpus[r.value].queue != []
    ensures r.Some? ==> forall d :: i <= d < r.value && d != c && d !in held ==> cpus[d].queue == []
    ensures r.None? ==> forall d :: i <= d < |cpus| && d != c && d !in held ==> cpus[d].queue == []
    decreases |cpus| - i
  {
    if i >= |cpus| then None
    else if i != c && cpus[i].queue != [] && i !in held then Some(i)
    else FirstQueued(cpus, c, held, i + 1)
  }

  /** Nothing to take: the own queue and every other that is not held are empty. */
  predicate Nothing(cpus: seq<Cpu>, c: nat, held: set<nat>) {
    forall d :: 0 <= d < |cpus| && (d == c || d !in held) ==> cpus[d].queue == []
  }

  /** Whose queue CPU c takes its next thread from: its own, else the first it gets hold of that is
      not empty. */
  function Source(cpus: seq<Cpu>, c: nat, held: set<nat>): (r: Option<nat>)
    requires c < |cpus|
    ensures r.Some? ==> r.value < |cpus| && cpus[r.value].queue != []
    ensures r.None? <==> Nothing(cpus, c, held)
  {
    if cpus[c].queue != [] then Some(c) else FirstQueued(cpus, c, held, 0)
  }

  const BALANCE_PERIOD: nat := 100

  /** A failed assert of switchTo ends the run; so does a pop loop that never ends, with its queue locked. */
  datatype Outcome = Ok(state: State) | AssertFails | LoopsForever

  predicate Queued(s: State) {
    forall d :: 0 <= d < |s.cpus| ==> NoneKilled(s.cpus[d].queue, s.threads)
  }

  function SwitchNext(s: State, c: nat, held: Held): Outcome
    requires c < |s.cpus| && s.cpus[c].idle in s.threads && Queued(s)
  {
    var f := Source(s.cpus, c, held.queues);
    if f.None? then
      if s.threads[s.cpus[c].idle] == Stopped then Ok(RunIdle(s, c)) else AssertFails
    else if !HasStopped(s, f.value) then LoopsForever
    else Ok(Ticked(Take(s, f.value, c), held.balance))
  }

  /** The balance tick, and the balancing that is due unless another CPU is at it. */
  function Ticked(s: State, busy: bool): State {
    if s.tick + 1 >= BALANCE_PERIOD && !busy then Rebalance(s.(tick := 0)) else s.(tick := s.tick + 1)
  }

  datatype Event =
    | Start(cpu: nat, held: Held)
    | Tick(cpu: nat, held: Held)
    | Yield(cpu: nat, held: Held)
    | Exit(cpu: nat, held: Held)
    | AddThread(cpu: nat, thread: Tid)
    | Reap(cpu: nat)

  /** Idle threads neither exit nor create threads, and a new thread is a new name. */
  ghost predicate Enabled(s: State, e: Event) {
    && e.cpu < |s.cpus|
    && match e
       case Start(c, _) => !s.cpus[c].started
       case Tick(c, _) => Runs(s, c)
       case Yield(c, _) => Runs(s, c)
       case Exit(c, _) => Runs(s, c) && s.cpus[c].current.value !in Idles(s.cpus)
       case AddThread(c, t) => t !in s.threads && (Runs(s, c) ==> s.cpus[c].current.value !in Idles(s.cpus))
       case Reap(c) => s.cpus[c].destroy != []
  }

  function Added(s: State, c: nat, t: Tid): State
    requires c < |s.cpus|
  {
    s.(threads := s.threads[t := Stopped], live := s.live + {t},
       cpus := s.cpus[c := s.cpus[c].(queue := s.cpus[c].queue + [t])])
  }

  function Reaped(s: State, c: nat): State
    requires c < |s.cpus| && s.cpus[c].destroy != []
  {
    var t := s.cpus[c].destroy[0];
    s.(threads := s.threads - {t}, live := s.live - {t}, cpus := s.cpus[c := s.cpus[c].(destroy := s.cpus[c].destroy[1..])])
  }

  lemma InvQueued(s: State, c: nat)
    requires Inv(s, c) && c < |s.cpus|
    ensures Queued(s) && s.cpus[c].idle in s.threads
  {
    hide Inv, Idles;
    CpuKnown(s, c, c);
    forall d | 0 <= d < |s.cpus| ensures NoneKilled(s.cpus[d].queue, s.threads) {
      CpuKnown(s, c, d);
      assert forall i :: 0 <= i < |s.cpus[d].queue| ==> s.cpus[d].queue[i] in s.cpus[d].queue;
    }
  }

  /** switchNext on a CPU that has left its thread. */
  ghost function OnFrom(s: State, c: nat, held: Held): Outcome
    requires Inv(s, c) && c < |s.cpus|
  {
    InvQueued(s, c);
    SwitchNext(s, c, held)
  }

  ghost function Step(s: State, e: Event): Outcome
    requires Inv(s, -1) && Enabled(s, e)
  {
    match e
    case Start(c, held) => ParkKeeps(s, c); OnFrom(Park(s, c), c, held)
    case Tick(c, held) => LeaveKeeps(s, c); OnFrom(Leave(s, c), c, held)
    case Yield(c, held) => LeaveKeeps(s, c); OnFrom(Leave(s, c), c, held)
    case Exit(c, held) => KillKeeps(s, c); OnFrom(Kill(s, c), c, held)
    case AddThread(c, t) => Ok(Added(s, c, t))
    case Reap(c) => Ok(Reaped(s, c))
  }

  // ----- every step keeps the invariant -----

  lemma TickedKeeps(s: State, busy: bool)
    requires Inv(s, -1)
    ensures Inv(Ticked(s, busy), -1) && |Ticked(s, busy).cpus| == |s.cpus|
  {
    hide Inv, Rebalance;
    TickIrrelevant(s, s.tick + 1);
    TickIrrelevant(s, 0);
    RebalanceKeeps(s.(tick := 0));
    RebalanceLength(s.(tick := 0));
  }

  lemma SwitchNextKeeps(s: State, c: nat, held: Held)
    requires Inv(s, c) && c < |s.cpus|
    ensures s.cpus[c].idle in s.threads && Queued(s)
    ensures SwitchNext(s, c, held).Ok? ==> Inv(SwitchNext(s, c, held).state, -1)
  {
    hide Inv, Rebalance, Take, RunIdle, Balanced, HasStopped, Ticked;
    InvQueued(s, c);
    var f := Source(s.cpus, c, held.queues);
    if f.None? {
      if s.threads[s.cpus[c].idle] == Stopped { RunIdleKeeps(s, c); }
    } else if HasStopped(s, f.value) {
      TakeKeeps(s, f.value, c);
      TickedKeeps(Take(s, f.value, c), held.balance);
    }
  }

  lemma TickIrrelevant(s: State, n: nat)
    requires Inv(s, -1)
    ensures Inv(s.(tick := n), -1)
  {
  }

  lemma NewNowhere(s: State, t: Tid)
    requires Inv(s, -1) && t !in s.threads
    ensures t !in Places(s.cpus) && t !in Idles(s.cpus)
    ensures forall d :: 0 <= d < |s.cpus| ==> Clear(t, Idles(s.cpus), s.cpus[d])
  {
    hide Places, Home, IsCurrent;
    forall d | 0 <= d < |s.cpus| ensures t !in Home(s.cpus[d]) && t != s.cpus[d].idle && Clear(t, Idles(s.cpus), s.cpus[d]) {
      CpuKnown(s, -1, d);
      QueuedAtHome(t, s.cpus[d]);
    }
    if t in Places(s.cpus) {
      var d := InSomeHome(s.cpus, t);
    }
  }

  lemma AddCpu(threads: map<Tid, ThreadState>, idles: set<Tid>, cpu: Cpu, t: Tid)
    requires CpuOk(threads, idles, cpu, false) && t !in threads
    ensures var cpu' := cpu.(queue := cpu.queue + [t]);
      Home(cpu') == Home(cpu) + multiset{t} && CpuOk(threads[t := Stopped], idles, cpu', false)
  {
  }

  lemma AddedKeeps(s: State, c: nat, t: Tid)
    requires Inv(s, -1) && c < |s.cpus| && t !in s.threads
    ensures Inv(Added(s, c, t), -1)
  {
    hide Places, Home, CpuOk, Idles;
    var s' := Added(s, c, t);
    NewNowhere(s, t);
    CpuKnown(s, -1, c);
    AddCpu(s.threads, Idles(s.cpus), s.cpus[c], t);
    SameIdles(s.cpus, s'.cpus);
    AddedPlaces(s, c, t);
    forall d | 0 <= d < |s'.cpus| ensures CpuOk(s'.threads, Idles(s.cpus), s'.cpus[d], d == -1) {
      if d != c { ClearCpu(s.threads, Idles(s.cpus), s.cpus[d], false, t, Stopped); }
    }
    forall b, d | 0 <= b < |s'.cpus| && 0 <= d < |s'.cpus| && !s'.cpus[d].started ensures s'.cpus[d].idle !in s'.cpus[b].queue {
      CpuKnown(s, -1, d);
    }
    forall u | u in s'.threads && s'.threads[u] == Running ensures IsCurrent(s'.cpus, u) {
      StillCurrent(s.cpus, s'.cpus, c, u);
    }
  }

  lemma AddedPlaces(s: State, c: nat, t: Tid)
    requires c < |s.cpus|
    ensures forall u :: Places(Added(s, c, t).cpus)[u] == Places(s.cpus)[u] + if u == t then 1 else 0
  {
    hide Places, Home;
    var cpus', x := Added(s, c, t).cpus, s.cpus[c].(queue := s.cpus[c].queue + [t]);
    PlacesUpdate(s.cpus, c, x);
    assert Home(x) == Home(s.cpus[c]) + multiset{t} by { AppendedHome(s.cpus[c], t); }
    forall u ensures Places(cpus')[u] == Places(s.cpus)[u] + if u == t then 1 else 0 {
      assert (Places(cpus') + Home(s.cpus[c]))[u] == (Places(s.cpus) + Home(x))[u];
    }
  }

  lemma AppendedHome(cpu: Cpu, t: Tid)
    ensures Home(cpu.(queue := cpu.queue + [t])) == Home(cpu) + multiset{t}
  {
  }

  /** Only the reaped thread loses its place. */
  lemma ReapedPlaces(s: State, c: nat, u: Tid)
    requires Inv(s, -1) && c < |s.cpus| && s.cpus[c].destroy != []
    ensures var s' := Reaped(s, c);
      && (u !in Idles(s.cpus) ==> Places(s'.cpus)[u] <= 1)
      && (u in s'.live <==> u in Places(s'.cpus) && u !in Idles(s.cpus))
  {
    hide Places, Home, IsCurrent, Idles;
    var t, s' := s.cpus[c].destroy[0], Reaped(s, c);
    ReapedThread(s, c);
    assert s'.cpus == s.cpus[c := s'.cpus[c]];
    OneLess(s.cpus, c, s'.cpus[c], t);
    assert Places(s'.cpus)[u] + (if u == t then 1 else 0) == Places(s.cpus)[u];
    assert u in s.live <==> u in Places(s.cpus) && u !in Idles(s.cpus);
  }

  /** The thread at the front of a destroy queue is killed, and nowhere else. */
  lemma ReapedThread(s: State, c: nat)
    requires Inv(s, -1) && c < |s.cpus| && s.cpus[c].destroy != []
    ensures var t, cpu := s.cpus[c].destroy[0], s.cpus[c];
      && t in s.threads && s.threads[t] == Killed && t !in Idles(s.cpus) && t !in cpu.queue
      && Home(cpu) == Home(cpu.(destroy := cpu.destroy[1..])) + multiset{t}
      && CpuOk(s.threads - {t}, Idles(s.cpus), cpu.(destroy := cpu.destroy[1..]), false)
      && forall d :: 0 <= d < |s.cpus| && d != c ==> t !in Home(s.cpus[d])
  {
    hide Places, Home, Idles, IsCurrent;
    var t, cpu := s.cpus[c].destroy[0], s.cpus[c];
    assert t in cpu.destroy;
    CpuKnown(s, -1, c);
    IdleAlive(s, t);
    OncePerCpu(s, -1, c);
    ReapCpu(s.threads, Idles(s.cpus), cpu);
    QueuedAtHome(t, cpu);
    forall d | 0 <= d < |s.cpus| && d != c ensures t !in Home(s.cpus[d]) {
      ElsewhereOnly(s, -1, c, d, t);
    }
  }

  lemma IdleAlive(s: State, t: Tid)
    requires Inv(s, -1) && t in s.threads && s.threads[t] == Killed
    ensures t !in Idles(s.cpus)
  {
    hide Places, IsCurrent;
    forall d | 0 <= d < |s.cpus| ensures s.cpus[d].idle != t {
      CpuKnown(s, -1, d);
    }
  }

  lemma ReapedKeeps(s: State, c: nat)
    requires Inv(s, -1) && c < |s.cpus| && s.cpus[c].destroy != []
    ensures Inv(Reaped(s, c), -1)
  {
    hide Places, Home, CpuOk, IsCurrent, Idles;
    var t, s' := s.cpus[c].destroy[0], Reaped(s, c);
    ReapedThread(s, c);
    SameIdles(s.cpus, s'.cpus);
    assert s'.cpus == s.cpus[c := s'.cpus[c]];
    forall u
      ensures u !in Idles(s.cpus) ==> Places(s'.cpus)[u] <= 1
      ensures u in s'.live <==> u in Places(s'.cpus) && u !in Idles(s.cpus)
    {
      ReapedPlaces(s, c, u);
    }
    forall d | 0 <= d < |s'.cpus| ensures CpuOk(s'.threads, Idles(s.cpus), s'.cpus[d], d == -1) {
      CpuKnown(s, -1, d);
      if d != c { ForgottenThread(s.threads, Idles(s.cpus), s.cpus[d], t); }
    }
    forall u | u in s'.threads && s'.threads[u] == Running ensures IsCurrent(s'.cpus, u) {
      StillCurrent(s.cpus, s'.cpus, c, u);
    }
  }

  lemma OneLess(cpus: seq<Cpu>, c: nat, x: Cpu, t: Tid)
    requires c < |cpus| && Home(cpus[c]) == Home(x) + multiset{t}
    ensures forall u :: Places(cpus[c := x])[u] + (if u == t then 1 else 0) == Places(cpus)[u]
  {
    hide Places, Home;
    PlacesUpdate(cpus, c, x);
    forall u ensures Places(cpus[c := x])[u] + (if u == t then 1 else 0) == Places(cpus)[u] {
      assert (Places(cpus[c := x]) + Home(cpus[c]))[u] == (Places(cpus) + Home(x))[u];
    }
  }

  lemma ReapCpu(threads: map<Tid, ThreadState>, idles: set<Tid>, cpu: Cpu)
    requires CpuOk(threads, idles, cpu, false) && cpu.destroy != [] && Home(cpu)[cpu.destroy[0]] <= 1
    ensures var t := cpu.destroy[0]; var cpu' := cpu.(destroy := cpu.destroy[1..]);
      && t in threads && threads[t] == Killed && t !in cpu.queue
      && Home(cpu) == Home(cpu') + multiset{t} && CpuOk(threads - {t}, idles, cpu', false)
  {
    var t := cpu.destroy[0];
    assert cpu.destroy == [t] + cpu.destroy[1..];
    assert Home(cpu)[t] == multiset(cpu.queue)[t] + Seat(cpu)[t] + multiset(cpu.destroy[1..])[t] + 1;
    assert t !in multiset(cpu.queue) && t !in multiset(cpu.destroy[1..]) && t !in Seat(cpu);
    assert t in cpu.destroy;
  }

  lemma ForgottenThread(threads: map<Tid, ThreadState>, idles: set<Tid>, cpu: Cpu, t: Tid)
    requires CpuOk(threads, idles, cpu, false) && t !in Home(cpu) && t in threads && threads[t] == Killed
    ensures CpuOk(threads - {t}, idles, cpu, false)
  {
    QueuedAtHome(t, cpu);
  }

  lemma StepKeepsInv(s: State, e: Event)
    requires Inv(s, -1) && Enabled(s, e)
    ensures Step(s, e).Ok? ==> Inv(Step(s, e).state, -1)
  {
    hide Inv, SwitchNext, Added, Reaped, Idles;
    match e
    case Start(c, held) => ParkKeeps(s, c); SwitchNextKeeps(Park(s, c), c, held);
    case Tick(c, held) => LeaveKeeps(s, c); SwitchNextKeeps(Leave(s, c), c, held);
    case Yield(c, held) => LeaveKeeps(s, c); SwitchNextKeeps(Leave(s, c), c, held);
    case Exit(c, held) => KillKeeps(s, c); SwitchNextKeeps(Kill(s, c), c, held);
    case AddThread(c, t) => AddedKeeps(s, c, t);
    case Reap(c) => ReapedKeeps(s, c);
  }

  // ----- runs -----

  /** The events es, each enabled in its turn and none failing, lead from s to s'. */
  ghost predicate Reaches(s: State, es: seq<Event>, s': State)
    requires Inv(s, -1)
    decreases |es|
  {
    if es == [] then s' == s
    else
      Enabled(s, es[0]) && Step(s, es[0]).Ok? &&
      (StepKeepsInv(s, es[0]); Reaches(Step(s, es[0]).state, es[1..], s'))
  }

  /** On any number of CPUs, after any run, whatever tryLock finds, every live thread is in exactly one
      place: one slot of one run queue, one CPU's current thread, or one slot of one destroy queue.
      A thread that runs, idle or not, is the current thread of exactly one CPU. */
  lemma {:induction false} RunKeepsPlacement(s: State, es: seq<Event>, s': State)
    requires Inv(s, -1) && Reaches(s, es, s')
    ensures Inv(s', -1)
    ensures forall t :: t in s'.live ==> Places(s'.cpus)[t] == 1
    ensures forall t :: t in s'.threads && s'.threads[t] == Running ==> IsCurrent(s'.cpus, t)
    ensures DistinctSeats(s'.cpus)
    decreases |es|
  {
    hide Step, Enabled, Places;
    if es != [] {
      StepKeepsInv(s, es[0]);
      RunKeepsPlacement(Step(s, es[0]).state, es[1..], s');
    }
  }

  // ----- when a step fails -----

  lemma SameSource(cpus: seq<Cpu>, cpus': seq<Cpu>, c: nat, held: set<nat>)
    requires c < |cpus| == |cpus'| && forall d :: 0 <= d < |cpus| ==> cpus'[d].queue == cpus[d].queue
    ensures Source(cpus', c, held) == Source(cpus, c, held)
  {
    SameFirst(cpus, cpus', c, held, 0);
  }

  lemma {:induction false} SameFirst(cpus: seq<Cpu>, cpus': seq<Cpu>, c: nat, held: set<nat>, i: nat)
    requires |cpus| == |cpus'| && forall d :: 0 <= d < |cpus| ==> cpus'[d].queue == cpus[d].queue
    ensures FirstQueued(cpus', c, held, i) == FirstQueued(cpus, c, held, i)
    decreases |cpus| - i
  {
    if i < |cpus| { SameFirst(cpus, cpus', c, held, i + 1); }
  }

  /** After a tick or a yield the thread that was left can be taken again. */
  lemma LeaveHasStopped(s: State, c: nat, held: set<nat>)
    requires Inv(s, -1) && Runs(s, c)
    ensures |Leave(s, c).cpus| == |s.cpus| && Source(Leave(s, c).cpus, c, held) == Some(c) && HasStopped(Leave(s, c), c)
  {
    hide Inv;
    LeaveKeeps(s, c);
    InvQueued(Leave(s, c), c);
    var q, threads := Leave(s, c).cpus[c].queue, Leave(s, c).threads;
    assert threads[q[|q| - 1]] == Stopped;
  }

  predicate IdleRuns(s: State, c: nat) {
    c < |s.cpus| && s.cpus[c].idle in s.threads && s.threads[s.cpus[c].idle] == Running
  }

  /** The assert of switchTo fails exactly when a thread exits, finds its own queue empty and every other
      empty or held, and its CPU's idle thread is running on another CPU. */
  lemma FailsExactly(s: State, e: Event)
    requires Inv(s, -1) && Enabled(s, e)
    ensures Step(s, e).AssertFails? <==>
      e.Exit? && Nothing(s.cpus, e.cpu, e.held.queues) && IdleRuns(s, e.cpu)
  {
    hide Inv, Take, RunIdle, Ticked, Idles, HasStopped;
    CpuKnown(s, -1, e.cpu);
    match e
    case Start(c, held) => ParkKeeps(s, c); InvQueued(Park(s, c), c);
    case Tick(c, held) => LeaveKeeps(s, c); InvQueued(Leave(s, c), c); LeaveHasStopped(s, c, held.queues);
    case Yield(c, held) => LeaveKeeps(s, c); InvQueued(Leave(s, c), c); LeaveHasStopped(s, c, held.queues);
    case Exit(c, held) =>
      KillKeeps(s, c);
      InvQueued(Kill(s, c), c);
      CpuKnown(Kill(s, c), c, c);
      SameSource(s.cpus, Kill(s, c).cpus, c, held.queues);
    case AddThread(c, t) =>
    case Reap(c) =>
  }

  /** All threads of a queue are running, which only idle threads can be there. */
  predicate AllRunning(s: State, f: nat) {
    f < |s.cpus| && forall t :: t in s.cpus[f].queue ==> t in s.threads && s.threads[t] == Running
  }

  lemma StoppedOrRunning(s: State, hole: int, f: nat)
    requires Inv(s, hole) && f < |s.cpus| && NoneKilled(s.cpus[f].queue, s.threads)
    ensures HasStopped(s, f) <==> !AllRunning(s, f)
  {
    hide Inv;
    var q := s.cpus[f].queue;
    CpuKnown(s, hole, f);
    if HasStopped(s, f) {
      assert q[FirstStopped(q, s.threads)] in q;
    } else {
      forall t | t in q ensures t in s.threads && s.threads[t] == Running {
        var i :| 0 <= i < |q| && q[i] == t;
      }
    }
  }

  /** A pop loop never ends exactly when a CPU that exits a thread or starts takes a queue, the first it
      gets hold of that is not empty, in which every thread is running. */
  lemma LoopsExactly(s: State, e: Event)
    requires Inv(s, -1) && Enabled(s, e)
    ensures Step(s, e).LoopsForever? <==>
      && (e.Exit? || e.Start?) && e.cpu < |s.cpus|
      && var f := Source(s.cpus, e.cpu, e.held.queues); f.Some? && AllRunning(s, f.value)
  {
    hide Inv, Take, RunIdle, Ticked, Idles, HasStopped, AllRunning;
    CpuKnown(s, -1, e.cpu);
    match e
    case Start(c, held) =>
      ParkKeeps(s, c);
      InvQueued(Park(s, c), c);
      SameSource(s.cpus, Park(s, c).cpus, c, held.queues);
      SameLoop(s, Park(s, c), c, Source(s.cpus, c, held.queues));
    case Tick(c, held) => LeaveKeeps(s, c); InvQueued(Leave(s, c), c); LeaveHasStopped(s, c, held.queues);
    case Yield(c, held) => LeaveKeeps(s, c); InvQueued(Leave(s, c), c); LeaveHasStopped(s, c, held.queues);
    case Exit(c, held) =>
      KillKeeps(s, c);
      InvQueued(Kill(s, c), c);
      SameSource(s.cpus, Kill(s, c).cpus, c, held.queues);
      SameLoop(s, Kill(s, c), c, Source(s.cpus, c, held.queues));
    case AddThread(c, t) =>
    case Reap(c) =>
  }

  /** A queue of running threads is one before and after the current thread goes. */
  lemma SameLoop(s: State, s': State, c: nat, f: Option<nat>)
    requires Inv(s, -1) && Inv(s', c) && Queued(s') && |s'.cpus| == |s.cpus| && c < |s.cpus|
    requires s' == Park(s, c) || (Runs(s, c) && s.cpus[c].current.value !in Idles(s.cpus) && s' == Kill(s, c))
    requires f.Some? ==> f.value < |s.cpus|
    ensures f.Some? ==> (HasStopped(s', f.value) <==> !AllRunning(s, f.value))
  {
    hide Inv, Idles, HasStopped;
    if f.Some? {
      StoppedOrRunning(s', c, f.value);
      CpuKnown(s', c, f.value);
    }
  }

  // ----- when every tryLock succeeds -----

  ghost function SeatsUpTo(cpus: seq<Cpu>, c: nat, n: nat): set<Tid>
    requires n <= |cpus|
  {
    set d | 0 <= d < n && d != c && cpus[d].current.Some? :: cpus[d].current.value
  }

  lemma {:induction false} SeatsAreFew(cpus: seq<Cpu>, c: nat, n: nat)
    requires n <= |cpus|
    ensures |SeatsUpTo(cpus, c, n)| <= if c < n then n - 1 else n
  {
    if n > 0 {
      SeatsAreFew(cpus, c, n - 1);
      var x := if n - 1 != c && cpus[n - 1].current.Some? then {cpus[n - 1].current.value} else {};
      assert SeatsUpTo(cpus, c, n) == SeatsUpTo(cpus, c, n - 1) + x;
    }
  }

  /** The threads of P live, have not exited, and are at least as many as the CPUs. The destroyer
      threads are such a set: one per CPU, each an endless loop. */
  ghost predicate Staffed(s: State, P: set<Tid>) {
    && P <= s.live && |P| >= |s.cpus|
    && forall p :: p in P ==> p in s.threads && s.threads[p] != Killed
  }

  /** A CPU inside a step holds no thread, so some queue holds one. */
  lemma SomethingQueued(s: State, c: nat, P: set<Tid>)
    requires Inv(s, c) && c < |s.cpus| && Staffed(s, P)
    ensures !Nothing(s.cpus, c, {})
  {
    hide Places, Home, IsCurrent;
    if Nothing(s.cpus, c, {}) {
      forall p | p in P ensures p in SeatsUpTo(s.cpus, c, |s.cpus|) {
        assert p in Places(s.cpus);
        var d := InSomeHome(s.cpus, p);
        QueuedAtHome(p, s.cpus[d]);
        CpuKnown(s, c, d);
      }
      SeatsAreFew(s.cpus, c, |s.cpus|);
      SubsetSize(P, SeatsUpTo(s.cpus, c, |s.cpus|));
    }
  }

  lemma {:induction false} SubsetSize(a: set<Tid>, b: set<Tid>)
    requires a <= b
    ensures |a| <= |b|
  {
    if a != {} {
      var x :| x in a;
      SubsetSize(a - {x}, b - {x});
    }
  }

  /** No idle thread is queued, or current on a CPU that has started. */
  ghost predicate Calm(s: State) {
    && (forall c, t :: 0 <= c < |s.cpus| && t in s.cpus[c].queue ==> t !in Idles(s.cpus))
    && (forall c :: 0 <= c < |s.cpus| && s.cpus[c].started && s.cpus[c].current.Some? ==> s.cpus[c].current.value !in Idles(s.cpus))
  }

  /** The event finds every run queue it tries for, and no thread of P exits. */
  ghost predicate Undisturbed(s: State, e: Event, P: set<Tid>) {
    && Enabled(s, e)
    && (e.Exit? || e.Start? ==> e.held.queues == {})
    && (e.Exit? ==> s.cpus[e.cpu].current.value !in P)
  }

  lemma RebalanceCalm(s: State)
    requires Calm(s)
    ensures Calm(Rebalance(s)) && |Rebalance(s).cpus| == |s.cpus|
  {
    hide Rebalance, Idles;
    RebalanceLength(s);
    var s' := Rebalance(s);
    forall c | 0 <= c < |s.cpus|
      ensures s'.cpus[c].idle == s.cpus[c].idle && s'.cpus[c].current == s.cpus[c].current && s'.cpus[c].started == s.cpus[c].started
    {
      RebalanceFields(s, c);
    }
    SameIdles(s.cpus, s'.cpus);
    forall c, t | 0 <= c < |s'.cpus| && t in s'.cpus[c].queue ensures t !in Idles(s.cpus) {
      var d := RebalancedQueue(s, c, t);
    }
  }

  lemma TickedCalm(s: State, busy: bool, P: set<Tid>)
    requires Calm(s) && Staffed(s, P)
    ensures Calm(Ticked(s, busy)) && Staffed(Ticked(s, busy), P)
  {
    hide Idles, Balanced;
    RebalanceCalm(s.(tick := 0));
  }

  lemma TakeCalm(s: State, f: nat, c: nat, P: set<Tid>)
    requires Calm(s) && Staffed(s, P) && c < |s.cpus| && HasStopped(s, f)
    ensures Calm(Take(s, f, c)) && Staffed(Take(s, f, c), P)
  {
    hide Idles, FirstStopped, Rotated;
    var s', q := Take(s, f, c), s.cpus[f].queue;
    SameIdles(s.cpus, s'.cpus);
    RotatedKeeps(q, FirstStopped(q, s.threads));
  }

  /** The CPU inside the step finds a queue with a stopped thread. */
  lemma CalmSwitch(s: State, c: nat, held: Held, P: set<Tid>)
    requires Inv(s, c) && c < |s.cpus| && Calm(s) && Staffed(s, P) && (held.queues == {} || s.cpus[c].queue != [])
    ensures Queued(s) && s.cpus[c].idle in s.threads
    ensures var r := SwitchNext(s, c, held); r.Ok? && Calm(r.state) && Staffed(r.state, P)
  {
    hide Inv, Idles, Take, RunIdle, Ticked, HasStopped, Calm, Staffed;
    InvQueued(s, c);
    if held.queues == {} { SomethingQueued(s, c, P); }
    var f := Source(s.cpus, c, held.queues);
    CalmStopped(s, c, f.value);
    TakeCalm(s, f.value, c, P);
    TickedCalm(Take(s, f.value, c), held.balance, P);
  }

  lemma CalmStopped(s: State, c: nat, f: nat)
    requires Inv(s, c) && f < |s.cpus| && Calm(s) && s.cpus[f].queue != [] && NoneKilled(s.cpus[f].queue, s.threads)
    ensures HasStopped(s, f)
  {
    hide Inv, HasStopped, Idles;
    StoppedOrRunning(s, c, f);
    CpuKnown(s, c, f);
    assert s.cpus[f].queue[0] in s.cpus[f].queue;
  }

  lemma LeaveCalm(s: State, c: nat, P: set<Tid>)
    requires Inv(s, -1) && Runs(s, c) && Calm(s) && Staffed(s, P)
    ensures Calm(Leave(s, c)) && Staffed(Leave(s, c), P)
  {
    hide Inv, Idles;
    CpuKnown(s, -1, c);
    SameIdles(s.cpus, Leave(s, c).cpus);
  }

  lemma KillCalm(s: State, c: nat, P: set<Tid>)
    requires Runs(s, c) && s.cpus[c].current.value !in P && Calm(s) && Staffed(s, P)
    ensures Calm(Kill(s, c)) && Staffed(Kill(s, c), P)
  {
    hide Idles;
    SameIdles(s.cpus, Kill(s, c).cpus);
  }

  lemma ParkCalm(s: State, c: nat, P: set<Tid>)
    requires c < |s.cpus| && Calm(s) && Staffed(s, P)
    ensures Calm(Park(s, c)) && Staffed(Park(s, c), P)
  {
    hide Idles;
    SameIdles(s.cpus, Park(s, c).cpus);
  }

  lemma AddedCalm(s: State, c: nat, t: Tid, P: set<Tid>)
    requires c < |s.cpus| && t !in Idles(s.cpus) && Calm(s) && Staffed(s, P)
    ensures Calm(Added(s, c, t)) && Staffed(Added(s, c, t), P)
  {
    hide Idles;
    SameIdles(s.cpus, Added(s, c, t).cpus);
  }

  lemma ReapedCalm(s: State, c: nat, P: set<Tid>)
    requires c < |s.cpus| && s.cpus[c].destroy != [] && Calm(s) && Staffed(s, P)
    requires var t := s.cpus[c].destroy[0]; t in s.threads && s.threads[t] == Killed
    ensures Calm(Reaped(s, c)) && Staffed(Reaped(s, c), P)
  {
    hide Idles;
    SameIdles(s.cpus, Reaped(s, c).cpus);
  }

  lemma StepKeepsCalm(s: State, e: Event, P: set<Tid>)
    requires Inv(s, -1) && Calm(s) && Staffed(s, P) && Undisturbed(s, e, P)
    ensures Step(s, e).Ok? && Calm(Step(s, e).state) && Staffed(Step(s, e).state, P)
  {
    hide Inv, SwitchNext, Idles, Calm, Staffed;
    match e
    case Start(c, held) => ParkKeeps(s, c); ParkCalm(s, c, P); CalmSwitch(Park(s, c), c, held, P);
    case Tick(c, held) => LeaveKeeps(s, c); LeaveCalm(s, c, P); CalmSwitch(Leave(s, c), c, held, P);
    case Yield(c, held) => LeaveKeeps(s, c); LeaveCalm(s, c, P); CalmSwitch(Leave(s, c), c, held, P);
    case Exit(c, held) => KillKeeps(s, c); KillCalm(s, c, P); CalmSwitch(Kill(s, c), c, held, P);
    case AddThread(c, t) => NewNowhere(s, t); AddedCalm(s, c, t, P);
    case Reap(c) => ReapedThread(s, c); ReapedCalm(s, c, P);
  }

  /** Every event of the script is enabled when its turn comes, as long as none before it failed;
      none meets a held queue; and no thread of P exits. */
  ghost predicate Scripted(s: State, es: seq<Event>, P: set<Tid>)
    requires Inv(s, -1)
    decreases |es|
  {
    es != [] ==>
      Undisturbed(s, es[0], P) &&
      (Step(s, es[0]).Ok? ==> (StepKeepsInv(s, es[0]); Scripted(Step(s, es[0]).state, es[1..], P)))
  }

  /** As long as no tryLock on a run queue fails and the destroyer threads do not exit, every script
      runs to its end on any number of CPUs, and no idle thread runs on a CPU once it has started. */
  lemma {:induction false} CalmRunsComplete(s: State, es: seq<Event>, P: set<Tid>) returns (s': State)
    requires Inv(s, -1) && Calm(s) && Staffed(s, P) && Scripted(s, es, P)
    ensures Reaches(s, es, s') && Inv(s', -1) && Calm(s') && Staffed(s', P)
    decreases |es|
  {
    hide Inv, Step, Staffed, Calm;
    s' := s;
    if es != [] {
      StepKeepsCalm(s, es[0], P);
      StepKeepsInv(s, es[0]);
      s' := CalmRunsComplete(Step(s, es[0]).state, es[1..], P);
    }
  }

  // ----- where runs begin -----

  function IdleOf(c: nat): Tid {
    2 * c
  }

  function DestroyerOf(c: nat): Tid {
    2 * c + 1
  }

  function Threads(n: nat): (m: map<Tid, ThreadState>)
    ensures forall t: nat :: t in m <==> t < 2 * n
    ensures forall t: nat :: t in m ==> m[t] == Stopped
  {
    if n == 0 then map[] else Threads(n - 1)[IdleOf(n - 1) := Stopped][DestroyerOf(n - 1) := Stopped]
  }

  function Destroyers(n: nat): set<Tid> {
    if n == 0 then {} else Destroyers(n - 1) + {DestroyerOf(n - 1)}
  }

  lemma {:induction false} DestroyerNames(n: nat, t: Tid)
    ensures t in Destroyers(n) <==> t < 2 * n && t % 2 == 1
  {
    if n > 0 {
      DestroyerNames(n - 1, t);
    }
  }

  lemma {:induction false} DestroyerCount(n: nat)
    ensures |Destroyers(n)| == n
  {
    if n > 0 {
      DestroyerCount(n - 1);
      DestroyerNames(n - 1, DestroyerOf(n - 1));
    }
  }

  function InitialCpu(c: nat): Cpu {
    Cpu([DestroyerOf(c)], Some(IdleOf(c)), IdleOf(c), [], false)
  }

  function InitialCpus(n: nat): (cpus: seq<Cpu>)
    ensures |cpus| == n && forall c :: 0 <= c < n ==> cpus[c] == InitialCpu(c)
  {
    if n == 0 then [] else InitialCpus(n - 1) + [InitialCpu(n - 1)]
  }

  /** After init on n CPUs: each has its idle thread as its current thread, not yet running, and
      its destroyer thread in its queue. */
  function Initial(n: nat): State {
    State(InitialCpus(n), Threads(n), 0, Destroyers(n))
  }

  lemma InitialHome(c: nat, t: Tid)
    ensures Home(InitialCpu(c))[t] == if t == IdleOf(c) || t == DestroyerOf(c) then 1 else 0
  {
    assert multiset([DestroyerOf(c)]) == multiset{DestroyerOf(c)};
  }

  lemma {:induction false} InitialPlaces(n: nat, t: Tid)
    ensures Places(InitialCpus(n))[t] == if t < 2 * n then 1 else 0
  {
    hide Home;
    if n > 0 {
      var pre := InitialCpus(n - 1);
      InitialPlaces(n - 1, t);
      InitialHome(n - 1, t);
      assert InitialCpus(n)[..n - 1] == pre;
      assert Places(InitialCpus(n)) == Places(pre) + Home(InitialCpu(n - 1));
    }
  }

  lemma InitialCpuOk(n: nat, c: nat)
    requires c < n
    ensures CpuOk(Threads(n), Idles(InitialCpus(n)), InitialCpu(c), false)
  {
    hide Threads, InitialCpus;
    InitialIdles(n, IdleOf(c));
  }

  lemma InitialInv(n: nat)
    ensures Inv(Initial(n), -1) && Staffed(Initial(n), Destroyers(n)) && Calm(Initial(n))
  {
    hide Places, InitialCpus, Threads, Destroyers, CpuOk, Idles, Calm, Staffed;
    var s := Initial(n);
    forall c | 0 <= c < n ensures CpuOk(s.threads, Idles(s.cpus), s.cpus[c], false) {
      InitialCpuOk(n, c);
    }
    forall t: Tid ensures Places(s.cpus)[t] <= 1 && (t in s.live <==> t in Places(s.cpus) && t !in Idles(s.cpus)) {
      InitialPlaces(n, t);
      InitialIdles(n, t);
      DestroyerNames(n, t);
    }
    InitialCalm(n);
  }

  lemma InitialCalm(n: nat)
    ensures Staffed(Initial(n), Destroyers(n)) && Calm(Initial(n))
  {
    hide InitialCpus, Threads, Destroyers, Idles;
    var s := Initial(n);
    DestroyerCount(n);
    forall p | p in Destroyers(n) ensures p in s.threads && s.threads[p] != Killed {
      DestroyerNames(n, p);
    }
    forall c | 0 <= c < n ensures DestroyerOf(c) !in Idles(s.cpus) {
      InitialIdles(n, DestroyerOf(c));
    }
  }

  lemma InitialIdles(n: nat, t: Tid)
    ensures t in Idles(InitialCpus(n)) <==> t < 2 * n && t % 2 == 0
  {
    hide InitialCpus;
    if t < 2 * n && t % 2 == 0 {
      assert InitialCpus(n)[t / 2].idle == t;
    }
  }
}

/** The scheduler on one CPU: no step fails, and threads run first come, first served. */
module OneProcessor {
  import opened Common
  import opened Balance
  import opened Picking
  import opened Scheduling
  import opened Scheduler

  /** On one CPU no assert fails and every pop loop ends: nobody else can be running the idle thread. */
  lemma OneCpuNeverFails(s: State, e: Event)
    requires Inv(s, -1) && |s.cpus| == 1 && Enabled(s, e)
    ensures Step(s, e).Ok?
  {
    hide Step, Places, Idles, Source;
    FailsExactly(s, e);
    LoopsExactly(s, e);
    CpuKnown(s, -1, 0);
    OnlyRunner(s);
    if e.Exit? || e.Start? {
      var f := Source(s.cpus, e.cpu, e.held.queues);
      if f.Some? { assert s.cpus[0].queue[0] in s.cpus[0].queue; }
    }
  }

  /** Exactly the current thread runs. */
  lemma OnlyRunner(s: State)
    requires Inv(s, -1) && |s.cpus| == 1
    ensures forall t :: t in s.threads && s.threads[t] == Running <==> Runs(s, 0) && s.cpus[0].current == Some(t)
  {
    hide Places, Idles;
    CpuKnown(s, -1, 0);
  }

  /** No thread, the idle one included, is in two places. */
  ghost predicate OneCpu(s: State) {
    Inv(s, -1) && |s.cpus| == 1 && forall t :: Places(s.cpus)[t] <= 1
  }

  /** Queued threads are distinct and stopped. */
  lemma OneCpuQueue(s: State)
    requires OneCpu(s)
    ensures forall i :: 0 <= i < |s.cpus[0].queue| ==> s.cpus[0].queue[i] in s.threads && s.threads[s.cpus[0].queue[i]] == Stopped
    ensures forall i, j :: 0 <= i < j < |s.cpus[0].queue| ==> s.cpus[0].queue[i] != s.cpus[0].queue[j]
  {
    hide Idles, IsCurrent;
    var cpu, q := s.cpus[0], s.cpus[0].queue;
    CpuKnown(s, -1, 0);
    OnlyRunner(s);
    HomeInPlaces(s.cpus, 0);
    forall t ensures multiset(q)[t] + Seat(cpu)[t] <= 1 {
      assert Home(cpu)[t] <= Places(s.cpus)[t];
    }
    forall i | 0 <= i < |q| ensures q[i] in s.threads && s.threads[q[i]] == Stopped {
      assert q[i] in q && q[i] in multiset(q);
    }
    forall i, j | 0 <= i < j < |q| ensures q[i] != q[j] {
      if q[i] == q[j] { Twice(q, i, j); }
      assert multiset(q)[q[i]] + Seat(cpu)[q[i]] <= 1;
    }
  }

  lemma Twice(q: seq<Tid>, i: nat, j: nat)
    requires i < j < |q| && q[i] == q[j]
    ensures multiset(q)[q[i]] >= 2
  {
    assert q == q[..j] + q[j..] && q[..j][i] == q[i] && q[j..][0] == q[j];
    assert q[i] in multiset(q[..j]) && q[i] in multiset(q[j..]);
  }

  predicate IsSwitch(e: Event) {
    e.Tick? || e.Yield? || e.Exit?
  }

  function Switches(es: seq<Event>): nat {
    if es == [] then 0 else (if IsSwitch(es[0]) then 1 else 0) + Switches(es[1..])
  }

  lemma OneCpuRebalance(s: State)
    requires |s.cpus| == 1
    ensures Rebalance(s) == s
  {
    assert QueuesOf(s.cpus) == [s.cpus[0].queue];
    assert Rebalance(s).cpus == s.cpus;
  }

  lemma OneCpuTicked(s: State, busy: bool)
    requires |s.cpus| == 1
    ensures Ticked(s, busy).cpus == s.cpus
  {
    hide Rebalance;
    OneCpuRebalance(s.(tick := 0));
  }

  lemma OnePlaces(cpu: Cpu)
    ensures Places([cpu]) == Home(cpu)
  {
    assert [cpu][..0] == [];
    assert Places([]) == multiset{};
  }

  /** Inside a step the front of the queue is taken, or the idle thread if there is none. */
  lemma OneCpuSwitch(s: State, held: Held)
    requires Inv(s, 0) && |s.cpus| == 1 && (forall t :: Places(s.cpus)[t] <= 1)
    requires forall t :: t in s.threads ==> s.threads[t] != Running
    ensures Queued(s) && s.cpus[0].idle in s.threads && SwitchNext(s, 0, held).Ok?
    ensures var q, x := s.cpus[0].queue, SwitchNext(s, 0, held).state.cpus;
      |x| == 1 && (if q == [] then x[0] == s.cpus[0].(current := Some(s.cpus[0].idle)) else x[0] == s.cpus[0].(queue := q[1..], current := Some(q[0])))
  {
    hide Inv, Places, Idles, Rebalance;
    InvQueued(s, 0);
    CpuKnown(s, 0, 0);
    var q := s.cpus[0].queue;
    if q != [] {
      assert q[0] in q && s.threads[q[0]] == Stopped;
      assert HasStopped(s, 0) && FirstStopped(q, s.threads) == 0 && Rotated(q, 0) == q[1..];
      OneCpuTicked(Take(s, 0, 0), held.balance);
    }
  }

  /** Every step keeps every thread in one place. */
  lemma OneCpuSwitchPlaces(s: State, x: Cpu)
    requires Inv(s, 0) && |s.cpus| == 1 && (forall t :: Places(s.cpus)[t] <= 1)
    requires var q := s.cpus[0].queue;
      if q == [] then x == s.cpus[0].(current := Some(s.cpus[0].idle)) else x == s.cpus[0].(queue := q[1..], current := Some(q[0]))
    ensures forall t :: Places([x])[t] <= 1
  {
    hide Idles, IsCurrent, Places;
    var cpu := s.cpus[0];
    assert s.cpus == [cpu];
    CpuKnown(s, 0, 0);
    OnePlaces(cpu);
    OnePlaces(x);
    if cpu.queue == [] {
      QueuedAtHome(cpu.idle, cpu);
      assert Home(x) == Home(cpu) + multiset{cpu.idle};
      forall t ensures Home(x)[t] <= 1 { assert Home(cpu)[t] <= 1; }
    } else {
      assert cpu.queue == [cpu.queue[0]] + cpu.queue[1..];
      assert Home(x) == Home(cpu);
    }
  }

  lemma OneCpuLeft(s: State, s': State)
    requires OneCpu(s) && Inv(s', 0) && |s'.cpus| == 1
    requires (!s.cpus[0].started && s' == Park(s, 0)) || (Runs(s, 0) && s' == Leave(s, 0)) || (Runs(s, 0) && s' == Kill(s, 0))
    ensures forall t :: Places(s'.cpus)[t] <= 1
    ensures forall t :: t in s'.threads ==> s'.threads[t] != Running
  {
    hide Idles, IsCurrent, Places, Home;
    OnlyRunner(s);
    CpuKnown(s, -1, 0);
    var x, y := s.cpus[0], s'.cpus[0];
    assert s.cpus == [x] && s'.cpus == [y];
    OnePlaces(x);
    OnePlaces(y);
    LeftHome(x);
    if !x.started { assert Home(x) == Home(y) + multiset{x.idle}; } else { assert Home(y) == Home(x); }
    forall t ensures Home(y)[t] <= 1 { assert Home(x)[t] <= 1; }
  }

  lemma LeftHome(cpu: Cpu)
    requires cpu.current.Some?
    ensures Home(cpu.(queue := cpu.queue + [cpu.current.value], current := None)) == Home(cpu)
    ensures Home(cpu.(destroy := cpu.destroy + [cpu.current.value], current := None)) == Home(cpu)
    ensures Home(cpu) == Home(cpu.(current := None, started := true)) + multiset{cpu.current.value}
  {
  }

  /** From a state that has left its thread, on to the next. */
  lemma OneCpuSwitched(s: State, s': State, held: Held)
    requires OneCpu(s) && Inv(s', 0) && |s'.cpus| == 1
    requires (!s.cpus[0].started && s' == Park(s, 0)) || (Runs(s, 0) && s' == Leave(s, 0)) || (Runs(s, 0) && s' == Kill(s, 0))
    ensures Queued(s') && s'.cpus[0].idle in s'.threads && SwitchNext(s', 0, held).Ok?
    ensures OneCpu(SwitchNext(s', 0, held).state)
    ensures var q, x := s'.cpus[0].queue, SwitchNext(s', 0, held).state.cpus[0];
      x.started == s'.cpus[0].started && x.current.Some? && (q != [] ==> x.queue == q[1..] && x.current == Some(q[0]))
  {
    hide Inv, Places, SwitchNext, Idles, Park, Leave, Kill;
    OneCpuLeft(s, s');
    OneCpuSwitch(s', held);
    SwitchNextKeeps(s', 0, held);
    var x := SwitchNext(s', 0, held).state.cpus;
    OneCpuSwitchPlaces(s', x[0]);
    assert x == [x[0]];
  }

  lemma OneCpuReaped(s: State, c: nat)
    requires OneCpu(s) && c == 0 && s.cpus[c].destroy != []
    ensures OneCpu(Reaped(s, c))
  {
    hide Places, Home, Idles, CpuOk, IsCurrent;
    var t, s' := s.cpus[c].destroy[0], Reaped(s, c);
    ReapedKeeps(s, c);
    ReapedThread(s, c);
    OneLess(s.cpus, c, s'.cpus[c], t);
    assert s'.cpus == s.cpus[c := s'.cpus[c]];
    forall u ensures Places(s'.cpus)[u] <= 1 {
      assert Places(s'.cpus)[u] + (if u == t then 1 else 0) == Places(s.cpus)[u];
    }
  }

  lemma OneCpuAdded(s: State, c: nat, t: Tid)
    requires OneCpu(s) && c == 0 && t !in s.threads
    ensures OneCpu(Added(s, c, t))
  {
    hide Places, Home, Idles, CpuOk, IsCurrent;
    AddedKeeps(s, c, t);
    AddedPlaces(s, c, t);
    NewNowhere(s, t);
    var s' := Added(s, c, t);
    forall u ensures Places(s'.cpus)[u] <= 1 {
      assert Places(s'.cpus)[u] == Places(s.cpus)[u] + if u == t then 1 else 0;
    }
  }

  /** What a step does to the one CPU: a switch brings in the front thread and moves everyone else up;
      other events leave the front of the queue alone. */
  lemma OneCpuStep(s: State, e: Event)
    requires OneCpu(s) && Enabled(s, e)
    ensures Step(s, e).Ok? && OneCpu(Step(s, e).state)
    ensures var q, x := s.cpus[0].queue, Step(s, e).state.cpus[0];
      && (IsSwitch(e) && q != [] ==> x.current == Some(q[0]) && q[1..] <= x.queue)
      && (!IsSwitch(e) && Runs(s, 0) ==> x.current == s.cpus[0].current && q <= x.queue)
      && (Runs(s, 0) ==> Runs(Step(s, e).state, 0))
  {
    hide OneCpu, SwitchNext, Idles, Inv;
    assert Inv(s, -1) && |s.cpus| == 1 by { Unfold(s); }
    match e
    case Start(c, held) => ParkKeeps(s, c); OneCpuSwitched(s, Park(s, c), held); Unfold(Step(s, e).state);
    case Tick(c, held) => LeaveKeeps(s, c); OneCpuSwitched(s, Leave(s, c), held); Unfold(Step(s, e).state);
    case Yield(c, held) => LeaveKeeps(s, c); OneCpuSwitched(s, Leave(s, c), held); Unfold(Step(s, e).state);
    case Exit(c, held) => KillKeeps(s, c); OneCpuSwitched(s, Kill(s, c), held); Unfold(Step(s, e).state);
    case AddThread(c, t) => OneCpuAdded(s, c, t);
    case Reap(c) => OneCpuReaped(s, c);
  }

  lemma Unfold(s: State)
    requires OneCpu(s)
    ensures Inv(s, -1) && |s.cpus| == 1
  {
  }

  // ----- runs on one CPU -----

  /** Every event is enabled when its turn comes, as long as none before it failed. */
  ghost predicate AllEnabled(s: State, es: seq<Event>)
    requires Inv(s, -1)
    decreases |es|
  {
    es != [] ==>
      Enabled(s, es[0]) &&
      (Step(s, es[0]).Ok? ==> (StepKeepsInv(s, es[0]); AllEnabled(Step(s, es[0]).state, es[1..])))
  }

  /** On one CPU no assert ever fails: every script of events runs to its end, and at each point exactly the
      current thread runs and the queued threads are distinct and stopped. */
  lemma {:induction false} OneCpuRuns(s: State, es: seq<Event>) returns (s': State)
    requires OneCpu(s) && AllEnabled(s, es)
    ensures Reaches(s, es, s') && OneCpu(s')
    ensures forall t :: t in s'.threads && s'.threads[t] == Running <==> Runs(s', 0) && s'.cpus[0].current == Some(t)
    ensures forall i :: 0 <= i < |s'.cpus[0].queue| ==> s'.cpus[0].queue[i] in s'.threads && s'.threads[s'.cpus[0].queue[i]] == Stopped
    ensures forall i, j :: 0 <= i < j < |s'.cpus[0].queue| ==> s'.cpus[0].queue[i] != s'.cpus[0].queue[j]
    decreases |es|
  {
    hide Inv, Step, Enabled, Places;
    s' := s;
    if es != [] {
      OneCpuStep(s, es[0]);
      s' := OneCpuRuns(Step(s, es[0]).state, es[1..]);
    } else {
      OnlyRunner(s);
      OneCpuQueue(s);
    }
  }

  lemma OneCpuInitial()
    ensures OneCpu(Initial(1))
  {
    hide Inv, Places, Initial;
    InitialInv(1);
    InitialOne();
  }

  /** From initialisation on, on one CPU. */
  lemma OneCpuFromBoot(es: seq<Event>) returns (s': State)
    requires Inv(Initial(1), -1) && AllEnabled(Initial(1), es)
    ensures Reaches(Initial(1), es, s') && OneCpu(s')
    ensures forall t :: t in s'.threads && s'.threads[t] == Running <==> Runs(s', 0) && s'.cpus[0].current == Some(t)
    ensures forall i :: 0 <= i < |s'.cpus[0].queue| ==> s'.cpus[0].queue[i] in s'.threads && s'.threads[s'.cpus[0].queue[i]] == Stopped
    ensures forall i, j :: 0 <= i < j < |s'.cpus[0].queue| ==> s'.cpus[0].queue[i] != s'.cpus[0].queue[j]
  {
    hide Inv, Initial, Places;
    OneCpuInitial();
    s' := OneCpuRuns(Initial(1), es);
  }

  lemma InitialOne()
    ensures |Initial(1).cpus| == 1 && forall t :: Places(Initial(1).cpus)[t] <= 1
  {
    hide Places, InitialCpus;
    forall t ensures Places(Initial(1).cpus)[t] <= 1 {
      InitialPlaces(1, t);
    }
  }

  /** While fewer switches have happened than there are threads ahead, a thread waits, each switch
      taking it one place forward. */
  lemma {:induction false} Waits(s: State, es: seq<Event>, s': State, k: nat)
    requires OneCpu(s) && Runs(s, 0) && Reaches(s, es, s') && k < |s.cpus[0].queue| && Switches(es) <= k
    ensures OneCpu(s') && Runs(s', 0) && k - Switches(es) < |s'.cpus[0].queue|
    ensures s'.cpus[0].queue[k - Switches(es)] == s.cpus[0].queue[k]
    decreases |es|
  {
    hide Inv, Step, Places;
    if es != [] {
      OneCpuStep(s, es[0]);
      var q, s1 := s.cpus[0].queue, Step(s, es[0]).state;
      if IsSwitch(es[0]) {
        assert s1.cpus[0].queue[k - 1] == q[1..][k - 1];
        Waits(s1, es[1..], s', k - 1);
      } else {
        Waits(s1, es[1..], s', k);
      }
    }
  }

  /** A thread with k threads ahead of it is dispatched at exactly the (k+1)th switch. */
  lemma DispatchedInTurn(s: State, es: seq<Event>, s1: State, e: Event, k: nat)
    requires OneCpu(s) && Runs(s, 0) && Reaches(s, es, s1) && k < |s.cpus[0].queue| && Switches(es) == k
    requires Inv(s1, -1) && Enabled(s1, e) && IsSwitch(e)
    ensures Step(s1, e).Ok? && |Step(s1, e).state.cpus| == 1
    ensures Step(s1, e).state.cpus[0].current == Some(s.cpus[0].queue[k])
  {
    hide Inv, Step, Places;
    Waits(s, es, s1, k);
    OneCpuStep(s1, e);
  }
}

/** The multi-CPU scheduler as a state machine: each handler together with its switchNext is one
    step. Where a run queue is only tried for, other CPUs may be holding it. */
module Scheduling {
  import opened Common
  import opened Balance
  import opened Picking

  /** `current` is None only inside a step, between leaving a thread and entering the next;
      `started` says that the CPU has gone through start(). */
  datatype Cpu = Cpu(queue: seq<Tid>, current: Option<Tid>, idle: Tid, destroy: seq<Tid>, started: bool)

  /** `live` are the threads created and not yet destroyed, the idle threads aside. */
  datatype State = State(cpus: seq<Cpu>, threads: map<Tid, ThreadState>, tick: nat, live: set<Tid>)

  // ----- where threads are -----

  function Seat(cpu: Cpu): multiset<Tid> {
    if cpu.current.Some? then multiset{cpu.current.value} else multiset{}
  }

  /** The places of one CPU: its run queue, its current thread, its destroy queue. */
  function Home(cpu: Cpu): multiset<Tid> {
    multiset(cpu.queue) + Seat(cpu) + multiset(cpu.destroy)
  }

  function Places(cpus: seq<Cpu>): multiset<Tid> {
    if cpus == [] then multiset{} else Places(cpus[..|cpus| - 1]) + Home(cpus[|cpus| - 1])
  }

  lemma {:induction false} PlacesUpdate(cpus: seq<Cpu>, c: nat, x: Cpu)
    requires c < |cpus|
    ensures Places(cpus[c := x]) + Home(cpus[c]) == Places(cpus) + Home(x)
  {
    hide Home;
    var cpus' := cpus[c := x];
    if c == |cpus| - 1 {
      assert cpus'[..|cpus| - 1] == cpus[..|cpus| - 1];
    } else {
      var pre, last := cpus[..|cpus| - 1], Home(cpus[|cpus| - 1]);
      assert cpus'[..|cpus| - 1] == pre[c := x];
      PlacesUpdate(pre, c, x);
      assert Places(cpus') == Places(pre[c := x]) + last && Places(cpus) == Places(pre) + last;
      assert Places(cpus') + Home(cpus[c]) == (Places(pre[c := x]) + Home(pre[c])) + last;
    }
  }

  lemma {:induction false} HomeInPlaces(cpus: seq<Cpu>, c: nat)
    requires c < |cpus|
    ensures Home(cpus[c]) <= Places(cpus)
  {
    hide Home;
    if c < |cpus| - 1 {
      HomeInPlaces(cpus[..|cpus| - 1], c);
    }
  }

  lemma {:induction false} TwoHomes(cpus: seq<Cpu>, c: nat, d: nat)
    requires c < d < |cpus|
    ensures Home(cpus[c]) + Home(cpus[d]) <= Places(cpus)
  {
    hide Home;
    var pre := cpus[..|cpus| - 1];
    if d == |cpus| - 1 {
      HomeInPlaces(pre, c);
    } else {
      TwoHomes(pre, c, d);
    }
  }

  lemma {:induction false} InSomeHome(cpus: seq<Cpu>, t: Tid) returns (c: nat)
    requires t in Places(cpus)
    ensures c < |cpus| && t in Home(cpus[c])
  {
    hide Home;
    if t in Home(cpus[|cpus| - 1]) {
      c := |cpus| - 1;
    } else {
      c := InSomeHome(cpus[..|cpus| - 1], t);
    }
  }

  ghost function Idles(cpus: seq<Cpu>): set<Tid> {
    set c | 0 <= c < |cpus| :: cpus[c].idle
  }

  // ----- the invariant -----

  predicate SeatOk(threads: map<Tid, ThreadState>, cpu: Cpu, t: Tid) {
    && t in threads
    && (if cpu.started then threads[t] == Running else t == cpu.idle && threads[t] == Stopped)
  }

  /** Queued threads are stopped, except that an idle thread may be running somewhere at the same time. */
  predicate QueueOk(threads: map<Tid, ThreadState>, idles: set<Tid>, q: seq<Tid>) {
    forall t :: t in q ==> t in threads && (threads[t] == Stopped || (threads[t] == Running && t in idles))
  }

  predicate CpuOk(threads: map<Tid, ThreadState>, idles: set<Tid>, cpu: Cpu, hole: bool) {
    && QueueOk(threads, idles, cpu.queue)
    && (forall t :: t in cpu.destroy ==> t in threads && threads[t] == Killed)
    && (hole <==> cpu.current.None?)
    && (hole ==> cpu.started)
    && (cpu.current.Some? ==> SeatOk(threads, cpu, cpu.current.value))
    && cpu.idle in idles && cpu.idle in threads && threads[cpu.idle] != Killed
  }

  ghost predicate IsCurrent(cpus: seq<Cpu>, t: Tid) {
    exists c :: 0 <= c < |cpus| && cpus[c].current == Some(t)
  }

  predicate DistinctSeats(cpus: seq<Cpu>) {
    forall c, d :: 0 <= c < d < |cpus| && cpus[c].current.Some? ==> cpus[c].current != cpus[d].current
  }

  /** The idle thread of a CPU that has not started is in no run queue. */
  predicate ParkedUnqueued(cpus: seq<Cpu>) {
    forall c, d :: 0 <= c < |cpus| && 0 <= d < |cpus| && !cpus[d].started ==> cpus[d].idle !in cpus[c].queue
  }

  predicate DistinctIdles(cpus: seq<Cpu>) {
    forall c, d :: 0 <= c < d < |cpus| ==> cpus[c].idle != cpus[d].idle
  }

  /** No thread but an idle one is in two places; states agree with places; no thread runs on two CPUs;
      the threads that are somewhere are the live ones, idle threads aside. `hole` is the CPU inside
      a step, if any. */
  ghost predicate Inv(s: State, hole: int) {
    && (forall c :: 0 <= c < |s.cpus| ==> CpuOk(s.threads, Idles(s.cpus), s.cpus[c], c == hole))
    && DistinctIdles(s.cpus) && DistinctSeats(s.cpus) && ParkedUnqueued(s.cpus)
    && (forall t :: t !in Idles(s.cpus) ==> Places(s.cpus)[t] <= 1)
    && (forall t :: t in s.live <==> t in Places(s.cpus) && t !in Idles(s.cpus))
    && (forall t :: t in s.threads && s.threads[t] == Running ==> IsCurrent(s.cpus, t))
  }

  lemma CpuKnown(s: State, hole: int, c: nat)
    requires Inv(s, hole) && c < |s.cpus|
    ensures CpuOk(s.threads, Idles(s.cpus), s.cpus[c], c == hole) && s.cpus[c].idle in Idles(s.cpus)
  {
  }

  lemma SameIdles(cpus: seq<Cpu>, cpus': seq<Cpu>)
    requires |cpus'| == |cpus| && forall d :: 0 <= d < |cpus| ==> cpus'[d].idle == cpus[d].idle
    ensures Idles(cpus') == Idles(cpus)
  {
    forall t | t in Idles(cpus) ensures t in Idles(cpus') {
      var d :| 0 <= d < |cpus| && cpus[d].idle == t;
      assert cpus'[d].idle == t;
    }
  }

  /** Nothing on the CPU depends on whether t runs or is stopped. */
  predicate Clear(t: Tid, idles: set<Tid>, cpu: Cpu) {
    cpu.current != Some(t) && t !in cpu.destroy && (t in idles || t !in cpu.queue)
  }

  lemma ClearCpu(threads: map<Tid, ThreadState>, idles: set<Tid>, cpu: Cpu, hole: bool, t: Tid, st: ThreadState)
    requires CpuOk(threads, idles, cpu, hole) && Clear(t, idles, cpu) && (st == Killed ==> t !in idles)
    ensures CpuOk(threads[t := st], idles, cpu, hole)
  {
  }

  lemma ElsewhereOnly(s: State, hole: int, c: nat, d: nat, t: Tid)
    requires Inv(s, hole) && c < |s.cpus| && d < |s.cpus| && c != d && t in Home(s.cpus[c]) && t !in Idles(s.cpus)
    ensures t !in Home(s.cpus[d])
  {
    hide Home;
    if c < d { TwoHomes(s.cpus, c, d); } else { TwoHomes(s.cpus, d, c); }
    assert Places(s.cpus)[t] >= (Home(s.cpus[c]) + Home(s.cpus[d]))[t];
  }

  lemma NotAtHome(t: Tid, idles: set<Tid>, cpu: Cpu)
    requires t !in Home(cpu)
    ensures Clear(t, idles, cpu)
  {
    assert t !in multiset(cpu.queue) && t !in multiset(cpu.destroy);
  }

  lemma QueuedAtHome(t: Tid, cpu: Cpu)
    ensures t in cpu.queue || t in cpu.destroy || cpu.current == Some(t) <==> t in Home(cpu)
  {
    assert t in cpu.queue <==> t in multiset(cpu.queue);
    assert t in cpu.destroy <==> t in multiset(cpu.destroy);
  }

  /** A current thread is on no other CPU in a way that matters. */
  lemma CurrentClear(s: State, hole: int, c: nat, d: nat, t: Tid)
    requires Inv(s, hole) && c < |s.cpus| && d < |s.cpus| && c != d && s.cpus[c].current == Some(t)
    ensures Clear(t, Idles(s.cpus), s.cpus[d])
  {
    CpuKnown(s, hole, c);
    CpuKnown(s, hole, d);
    if t !in Idles(s.cpus) {
      QueuedAtHome(t, s.cpus[c]);
      ElsewhereOnly(s, hole, c, d, t);
      NotAtHome(t, Idles(s.cpus), s.cpus[d]);
    }
  }

  /** A stopped thread in a run queue is nobody's current thread. */
  lemma QueuedUnseated(s: State, hole: int, f: nat, d: nat, t: Tid)
    requires Inv(s, hole) && f < |s.cpus| && d < |s.cpus| && t in s.cpus[f].queue && t in s.threads && s.threads[t] == Stopped
    ensures s.cpus[d].current != Some(t)
    ensures d != f ==> Clear(t, Idles(s.cpus), s.cpus[d])
  {
    hide Places, Home;
    CpuKnown(s, hole, f);
    CpuKnown(s, hole, d);
    if d != f && t !in Idles(s.cpus) {
      QueuedAtHome(t, s.cpus[f]);
      ElsewhereOnly(s, hole, f, d, t);
      NotAtHome(t, Idles(s.cpus), s.cpus[d]);
    }
  }

  /** A thread that is not idle is in one place of its own CPU only. */
  lemma OncePerCpu(s: State, hole: int, c: nat)
    requires Inv(s, hole) && c < |s.cpus|
    ensures forall t :: t !in Idles(s.cpus) ==> Home(s.cpus[c])[t] <= 1
  {
    hide Home;
    HomeInPlaces(s.cpus, c);
    forall t | t !in Idles(s.cpus) ensures Home(s.cpus[c])[t] <= 1 {
      assert Home(s.cpus[c])[t] <= Places(s.cpus)[t];
    }
  }

  // ----- one step, generally -----

  /** Between s and s', CPU c left or entered t, CPU f lost queued threads at most, and the rest stayed. */
  ghost predicate Moves(s: State, hole: int, s': State, hole': int, c: nat, f: nat, t: Tid) {
    && |s'.cpus| == |s.cpus| && c < |s.cpus| && f < |s.cpus| && s'.live == s.live
    && (forall d :: 0 <= d < |s.cpus| ==> s'.cpus[d].idle == s.cpus[d].idle)
    && (forall d :: 0 <= d < |s.cpus| && d != c ==> s'.cpus[d].current == s.cpus[d].current != Some(t) && s'.cpus[d].started == s.cpus[d].started)
    && s.cpus[c].current in {None, Some(t)} && s'.cpus[c].current in {None, Some(t)} && s'.cpus[c].started
    && (forall d :: 0 <= d < |s.cpus| && d != c && d != f ==> s'.cpus[d] == s.cpus[d] && Clear(t, Idles(s.cpus), s.cpus[d]) && (d == hole <==> d == hole'))
    && (forall d, u :: 0 <= d < |s.cpus| && u in s'.cpus[d].queue ==> u in s.cpus[d].queue || u == t)
    && t in s'.threads && s'.threads == s.threads[t := s'.threads[t]]
    && (s'.threads[t] == Killed ==> t !in Idles(s.cpus))
    && (s'.threads[t] == Running ==> s'.cpus[c].current == Some(t))
  }

  lemma StepKeeps(s: State, hole: int, s': State, hole': int, c: nat, f: nat, t: Tid)
    requires Inv(s, hole) && Moves(s, hole, s', hole', c, f, t)
    requires CpuOk(s'.threads, Idles(s.cpus), s'.cpus[c], c == hole') && CpuOk(s'.threads, Idles(s.cpus), s'.cpus[f], f == hole')
    requires forall u :: u !in Idles(s.cpus) ==> Places(s'.cpus)[u] == Places(s.cpus)[u]
    ensures Inv(s', hole')
  {
    hide Places, CpuOk, IsCurrent, ParkedUnqueued, DistinctSeats, Idles;
    SameIdles(s.cpus, s'.cpus);
    forall d | 0 <= d < |s'.cpus| ensures CpuOk(s'.threads, Idles(s.cpus), s'.cpus[d], d == hole') {
      if d != c && d != f {
        ClearCpu(s.threads, Idles(s.cpus), s.cpus[d], d == hole, t, s'.threads[t]);
      }
    }
    forall u | u in s'.threads && s'.threads[u] == Running ensures IsCurrent(s'.cpus, u) {
      if u != t { StillCurrent(s.cpus, s'.cpus, c, u); } else { IsSeated(s'.cpus, c, t); }
    }
    StepKeepsSeats(s, hole, s', hole', c, f, t);
    StepKeepsParked(s, hole, s', hole', c, f, t);
  }

  lemma StepKeepsSeats(s: State, hole: int, s': State, hole': int, c: nat, f: nat, t: Tid)
    requires DistinctSeats(s.cpus) && Moves(s, hole, s', hole', c, f, t)
    ensures DistinctSeats(s'.cpus)
  {
  }

  lemma StepKeepsParked(s: State, hole: int, s': State, hole': int, c: nat, f: nat, t: Tid)
    requires Inv(s, hole) && Moves(s, hole, s', hole', c, f, t)
    ensures ParkedUnqueued(s'.cpus)
  {
    hide Places, Home, Idles, IsCurrent;
    forall b, d | 0 <= b < |s'.cpus| && 0 <= d < |s'.cpus| && !s'.cpus[d].started ensures s'.cpus[d].idle !in s'.cpus[b].queue {
      CpuKnown(s, hole, d);
      assert s.cpus[d].current == Some(s.cpus[d].idle);
    }
  }

  lemma IsSeated(cpus: seq<Cpu>, c: nat, t: Tid)
    requires c < |cpus| && cpus[c].current == Some(t)
    ensures IsCurrent(cpus, t)
  {
  }

  lemma StillCurrent(cpus: seq<Cpu>, cpus': seq<Cpu>, c: nat, u: Tid)
    requires IsCurrent(cpus, u) && |cpus'| == |cpus| && c < |cpus|
    requires forall d :: 0 <= d < |cpus| && d != c ==> cpus'[d].current == cpus[d].current
    requires cpus[c].current != Some(u) || cpus'[c].current == Some(u)
    ensures IsCurrent(cpus', u)
  {
    var d :| 0 <= d < |cpus| && cpus[d].current == Some(u);
    assert cpus'[d].current == Some(u);
  }

  // ----- parts of a step -----

  ghost predicate Runs(s: State, c: nat) {
    c < |s.cpus| && s.cpus[c].started && s.cpus[c].current.Some?
  }

  /** Tick and yield: the current thread stops and goes to the back of its CPU's queue. */
  function Leave(s: State, c: nat): State
    requires c < |s.cpus| && s.cpus[c].current.Some?
  {
    var cpu := s.cpus[c];
    var t := cpu.current.value;
    s.(threads := s.threads[t := Stopped], cpus := s.cpus[c := cpu.(queue := cpu.queue + [t], current := None)])
  }

  /** exit: the current thread is killed and goes to its CPU's destroy queue. */
  function Kill(s: State, c: nat): State
    requires c < |s.cpus| && s.cpus[c].current.Some?
  {
    var cpu := s.cpus[c];
    var t := cpu.current.value;
    s.(threads := s.threads[t := Killed], cpus := s.cpus[c := cpu.(destroy := cpu.destroy + [t], current := None)])
  }

  lemma MovedHome(cpus: seq<Cpu>, c: nat, x: Cpu)
    requires c < |cpus| && Home(x) == Home(cpus[c])
    ensures Places(cpus[c := x]) == Places(cpus)
  {
    hide Places, Home;
    PlacesUpdate(cpus, c, x);
    forall t ensures Places(cpus[c := x])[t] == Places(cpus)[t] {
      assert (Places(cpus[c := x]) + Home(cpus[c]))[t] == (Places(cpus) + Home(x))[t];
    }
  }

  /** Taking away or adding one thread changes the places of that one only. */
  lemma OthersStay(cpus: seq<Cpu>, c: nat, x: Cpu, i: Tid)
    requires c < |cpus| && (Home(cpus[c]) == Home(x) + multiset{i} || Home(x) == Home(cpus[c]) + multiset{i})
    ensures forall t :: t != i ==> Places(cpus[c := x])[t] == Places(cpus)[t]
  {
    hide Places, Home;
    PlacesUpdate(cpus, c, x);
    forall t | t != i ensures Places(cpus[c := x])[t] == Places(cpus)[t] {
      assert (Places(cpus[c := x]) + Home(cpus[c]))[t] == (Places(cpus) + Home(x))[t];
    }
  }

  lemma LeaveCpu(threads: map<Tid, ThreadState>, idles: set<Tid>, cpu: Cpu)
    requires CpuOk(threads, idles, cpu, false) && cpu.started
    ensures var t := cpu.current.value; var cpu' := cpu.(queue := cpu.queue + [t], current := None);
      Home(cpu') == Home(cpu) && CpuOk(threads[t := Stopped], idles, cpu', true)
  {
  }

  lemma KillCpu(threads: map<Tid, ThreadState>, idles: set<Tid>, cpu: Cpu)
    requires CpuOk(threads, idles, cpu, false) && cpu.started && cpu.current.value !in idles && Home(cpu)[cpu.current.value] <= 1
    ensures var t := cpu.current.value; var cpu' := cpu.(destroy := cpu.destroy + [t], current := None);
      Home(cpu') == Home(cpu) && CpuOk(threads[t := Killed], idles, cpu', true)
  {
    var t := cpu.current.value;
    assert Home(cpu)[t] == multiset(cpu.queue)[t] + 1 + multiset(cpu.destroy)[t];
    assert t !in multiset(cpu.queue);
  }

  lemma LeaveKeeps(s: State, c: nat)
    requires Inv(s, -1) && Runs(s, c)
    ensures Inv(Leave(s, c), c)
  {
    hide Places, Home, Inv, Idles;
    var cpu, s' := s.cpus[c], Leave(s, c);
    var t := cpu.current.value;
    CpuKnown(s, -1, c);
    LeaveCpu(s.threads, Idles(s.cpus), cpu);
    MovedHome(s.cpus, c, s'.cpus[c]);
    forall d | 0 <= d < |s.cpus| && d != c ensures Clear(t, Idles(s.cpus), s.cpus[d]) {
      CurrentClear(s, -1, c, d, t);
    }
    hide CpuOk;
    StepKeeps(s, -1, s', c, c, c, t);
  }

  lemma KillKeeps(s: State, c: nat)
    requires Inv(s, -1) && Runs(s, c) && s.cpus[c].current.value !in Idles(s.cpus)
    ensures Inv(Kill(s, c), c)
  {
    hide Places, Home, Inv, Idles;
    var cpu, s' := s.cpus[c], Kill(s, c);
    var t := cpu.current.value;
    CpuKnown(s, -1, c);
    OncePerCpu(s, -1, c);
    KillCpu(s.threads, Idles(s.cpus), cpu);
    MovedHome(s.cpus, c, s'.cpus[c]);
    forall d | 0 <= d < |s.cpus| && d != c ensures Clear(t, Idles(s.cpus), s.cpus[d]) {
      CurrentClear(s, -1, c, d, t);
    }
    hide CpuOk;
    StepKeeps(s, -1, s', c, c, c, t);
  }

  /** start: the CPU leaves its idle thread, which was never queued. */
  function Park(s: State, c: nat): State
    requires c < |s.cpus|
  {
    s.(cpus := s.cpus[c := s.cpus[c].(current := None, started := true)])
  }

  lemma ParkCpu(threads: map<Tid, ThreadState>, idles: set<Tid>, cpu: Cpu)
    requires CpuOk(threads, idles, cpu, false) && !cpu.started
    ensures var cpu' := cpu.(current := None, started := true);
      CpuOk(threads, idles, cpu', true) && Home(cpu) == Home(cpu') + multiset{cpu.idle} && threads[cpu.idle] == Stopped && cpu.current == Some(cpu.idle)
  {
  }

  lemma ParkKeeps(s: State, c: nat)
    requires Inv(s, -1) && c < |s.cpus| && !s.cpus[c].started
    ensures Inv(Park(s, c), c)
  {
    hide Places, Home, Inv, Idles;
    var cpu, s' := s.cpus[c], Park(s, c);
    var i := cpu.idle;
    CpuKnown(s, -1, c);
    ParkCpu(s.threads, Idles(s.cpus), cpu);
    OthersStay(s.cpus, c, s'.cpus[c], i);
    forall d | 0 <= d < |s.cpus| && d != c ensures Clear(i, Idles(s.cpus), s.cpus[d]) {
      CurrentClear(s, -1, c, d, i);
    }
    hide CpuOk;
    assert s'.threads == s.threads[i := s'.threads[i]];
    StepKeeps(s, -1, s', c, c, c, i);
  }

  /** Queue f has a stopped thread. */
  predicate HasStopped(s: State, f: nat) {
    f < |s.cpus| && NoneKilled(s.cpus[f].queue, s.threads) && FirstStopped(s.cpus[f].queue, s.threads) < |s.cpus[f].queue|
  }

  function StoppedIn(s: State, f: nat): (t: Tid)
    requires HasStopped(s, f)
    ensures t in s.cpus[f].queue && t in s.threads && s.threads[t] == Stopped
  {
    s.cpus[f].queue[FirstStopped(s.cpus[f].queue, s.threads)]
  }

  /** CPU c enters the first stopped thread of CPU f's queue; the running ones before it go to the back. */
  function Take(s: State, f: nat, c: nat): State
    requires c < |s.cpus| && HasStopped(s, f)
  {
    var q := s.cpus[f].queue;
    var t := StoppedIn(s, f);
    var cpus := s.cpus[f := s.cpus[f].(queue := Rotated(q, FirstStopped(q, s.threads)))];
    s.(threads := s.threads[t := Running], cpus := cpus[c := cpus[c].(current := Some(t))])
  }

  lemma TakenCpu(threads: map<Tid, ThreadState>, idles: set<Tid>, cpu: Cpu, hole: bool, i: nat)
    requires CpuOk(threads, idles, cpu, hole) && i < |cpu.queue| && threads[cpu.queue[i]] == Stopped && cpu.current != Some(cpu.queue[i])
    requires cpu.queue[i] !in idles ==> Home(cpu)[cpu.queue[i]] <= 1
    ensures var t, cpu' := cpu.queue[i], cpu.(queue := Rotated(cpu.queue, i));
      Home(cpu) == Home(cpu') + multiset{t} && CpuOk(threads[t := Running], idles, cpu', hole)
  {
    hide Rotated;
    var t, q := cpu.queue[i], Rotated(cpu.queue, i);
    RotatedKeeps(cpu.queue, i);
    TakenHome(cpu, i);
    assert t in q ==> t in multiset(q);
    assert t in cpu.queue;
  }

  lemma TakenHome(cpu: Cpu, i: nat)
    requires i < |cpu.queue|
    ensures var t, q := cpu.queue[i], Rotated(cpu.queue, i);
      Home(cpu) == Home(cpu.(queue := q)) + multiset{t} && Home(cpu)[t] >= multiset(q)[t] + 1
  {
    hide Rotated;
    RotatedKeeps(cpu.queue, i);
    HomeWith(cpu, Rotated(cpu.queue, i));
  }

  lemma SeatedCpu(threads: map<Tid, ThreadState>, idles: set<Tid>, cpu: Cpu, t: Tid)
    requires CpuOk(threads, idles, cpu, true) && t in threads && threads[t] == Running
    ensures var cpu' := cpu.(current := Some(t));
      Home(cpu') == Home(cpu) + multiset{t} && CpuOk(threads, idles, cpu', false)
  {
  }

  lemma TakeKeeps(s: State, f: nat, c: nat)
    requires Inv(s, c) && c < |s.cpus| && HasStopped(s, f)
    ensures Inv(Take(s, f, c), -1)
  {
    hide Places, Home, Inv, Idles, FirstStopped, Rotated;
    var t, s' := StoppedIn(s, f), Take(s, f, c);
    var idles, i := Idles(s.cpus), FirstStopped(s.cpus[f].queue, s.threads);
    var x := s.cpus[f].(queue := Rotated(s.cpus[f].queue, i));
    CpuKnown(s, c, f);
    CpuKnown(s, c, c);
    OncePerCpu(s, c, f);
    forall d | 0 <= d < |s.cpus| ensures s.cpus[d].current != Some(t) && (d != f ==> Clear(t, idles, s.cpus[d])) {
      QueuedUnseated(s, c, f, d, t);
    }
    TakenCpu(s.threads, idles, s.cpus[f], f == c, i);
    if f == c {
      SeatedCpu(s'.threads, idles, x, t);
      assert s'.cpus == s.cpus[c := s'.cpus[c]];
      MovedHome(s.cpus, c, s'.cpus[c]);
    } else {
      ClearCpu(s.threads, idles, s.cpus[c], true, t, Running);
      SeatedCpu(s'.threads, idles, s.cpus[c], t);
      assert s'.cpus == s.cpus[f := s'.cpus[f]][c := s'.cpus[c]];
      MovedBetween(s.cpus, f, s'.cpus[f], c, s'.cpus[c], t);
    }
    RotatedKeeps(s.cpus[f].queue, i);
    hide CpuOk;
    StepKeeps(s, c, s', -1, c, f, t);
  }

  lemma MovedBetween(cpus: seq<Cpu>, f: nat, x: Cpu, c: nat, y: Cpu, t: Tid)
    requires f < |cpus| && c < |cpus| && f != c
    requires Home(cpus[f]) == Home(x) + multiset{t} && Home(y) == Home(cpus[c]) + multiset{t}
    ensures Places(cpus[f := x][c := y]) == Places(cpus)
  {
    hide Places, Home;
    PlacesUpdate(cpus, f, x);
    PlacesUpdate(cpus[f := x], c, y);
    forall u ensures Places(cpus[f := x][c := y])[u] == Places(cpus)[u] {
      assert (Places(cpus[f := x]) + Home(cpus[f]))[u] == (Places(cpus) + Home(x))[u];
      assert (Places(cpus[f := x][c := y]) + Home(cpus[c]))[u] == (Places(cpus[f := x]) + Home(y))[u];
    }
  }

  /** CPU c enters its idle thread. */
  function RunIdle(s: State, c: nat): State
    requires c < |s.cpus|
  {
    var i := s.cpus[c].idle;
    s.(threads := s.threads[i := Running], cpus := s.cpus[c := s.cpus[c].(current := Some(i))])
  }

  /** A stopped idle thread of a started CPU is nobody's current thread. */
  lemma IdleUnseated(s: State, c: nat, d: nat)
    requires Inv(s, c) && c < |s.cpus| && d < |s.cpus| && s.threads[s.cpus[c].idle] == Stopped
    ensures Clear(s.cpus[c].idle, Idles(s.cpus), s.cpus[d])
  {
    hide Places, Home, IsCurrent;
    CpuKnown(s, c, c);
    CpuKnown(s, c, d);
  }

  lemma RunIdleKeeps(s: State, c: nat)
    requires Inv(s, c) && c < |s.cpus| && s.threads[s.cpus[c].idle] == Stopped
    ensures Inv(RunIdle(s, c), -1)
  {
    hide Places, Home, Inv, Idles;
    var i, s', idles := s.cpus[c].idle, RunIdle(s, c), Idles(s.cpus);
    CpuKnown(s, c, c);
    forall d | 0 <= d < |s.cpus| ensures Clear(i, idles, s.cpus[d]) {
      IdleUnseated(s, c, d);
    }
    ClearCpu(s.threads, idles, s.cpus[c], true, i, Running);
    SeatedCpu(s'.threads, idles, s.cpus[c], i);
    OthersStay(s.cpus, c, s'.cpus[c], i);
    hide CpuOk;
    StepKeeps(s, c, s', -1, c, c, i);
  }

  // ----- balancing -----

  function QueuesOf(cpus: seq<Cpu>): Queues {
    seq(|cpus|, c requires 0 <= c < |cpus| => cpus[c].queue)
  }

  function WithQueues(cpus: seq<Cpu>, qs: Queues): seq<Cpu>
    requires |qs| == |cpus|
  {
    seq(|cpus|, c requires 0 <= c < |cpus| => cpus[c].(queue := qs[c]))
  }

  function Rebalance(s: State): State {
    s.(cpus := WithQueues(s.cpus, Balanced(QueuesOf(s.cpus))))
  }

  function Fixed(cpus: seq<Cpu>): multiset<Tid> {
    if cpus == [] then multiset{}
    else Fixed(cpus[..|cpus| - 1]) + Seat(cpus[|cpus| - 1]) + multiset(cpus[|cpus| - 1].destroy)
  }

  lemma {:induction false} PlacesSplit(cpus: seq<Cpu>, qs: Queues)
    requires |qs| == |cpus|
    ensures Places(WithQueues(cpus, qs)) == All(qs) + Fixed(cpus)
  {
    hide Seat, Home;
    if cpus != [] {
      var n, with := |cpus| - 1, WithQueues(cpus, qs);
      var last := cpus[n];
      PlacesSplit(cpus[..n], qs[..n]);
      assert with[..n] == WithQueues(cpus[..n], qs[..n]);
      HomeWith(last, qs[n]);
      assert Places(with) == Places(with[..n]) + Home(with[n]);
      assert All(qs) == All(qs[..n]) + multiset(qs[n]);
      assert Fixed(cpus) == Fixed(cpus[..n]) + Seat(last) + multiset(last.destroy);
      hide Places, All, Fixed, WithQueues;
      Regroup(Places(with[..n]), All(qs[..n]), Fixed(cpus[..n]), multiset(qs[n]), Seat(last), multiset(last.destroy));
    }
  }

  lemma HomeWith(cpu: Cpu, q: seq<Tid>)
    ensures Home(cpu.(queue := q)) == multiset(q) + Seat(cpu) + multiset(cpu.destroy)
  {
  }

  lemma Regroup(p: multiset<Tid>, a: multiset<Tid>, f: multiset<Tid>, q: multiset<Tid>, seat: multiset<Tid>, d: multiset<Tid>)
    requires p == a + f
    ensures p + (q + seat + d) == (a + q) + (f + seat + d)
  {
  }

  lemma {:induction false} InAll(qs: Queues, t: Tid, c: nat)
    requires c < |qs| && t in qs[c]
    ensures t in All(qs)
  {
    if c < |qs| - 1 { InAll(qs[..|qs| - 1], t, c); }
  }

  lemma {:induction false} InSomeQueue(qs: Queues, t: Tid) returns (c: nat)
    requires t in All(qs)
    ensures c < |qs| && t in qs[c]
  {
    if t in qs[|qs| - 1] { c := |qs| - 1; } else { c := InSomeQueue(qs[..|qs| - 1], t); }
  }

  lemma RebalancePlaces(cpus: seq<Cpu>)
    ensures Places(WithQueues(cpus, Balanced(QueuesOf(cpus)))) == Places(cpus)
  {
    hide Places, Balanced, All;
    var qs := QueuesOf(cpus);
    BalancedConserves(qs);
    PlacesSplit(cpus, qs);
    PlacesSplit(cpus, Balanced(qs));
    assert WithQueues(cpus, qs) == cpus;
  }

  /** What a queue holds after balancing was in some queue before. */
  lemma RebalancedQueue(s: State, c: nat, t: Tid) returns (d: nat)
    requires c < |s.cpus| && t in Rebalance(s).cpus[c].queue
    ensures d < |s.cpus| && t in s.cpus[d].queue
  {
    hide Balanced, All;
    var qs := QueuesOf(s.cpus);
    BalancedConserves(qs);
    InAll(Balanced(qs), t, c);
    d := InSomeQueue(qs, t);
  }

  lemma RebalanceFields(s: State, c: nat)
    requires c < |s.cpus|
    ensures |Rebalance(s).cpus| == |s.cpus|
    ensures var x, y := s.cpus[c], Rebalance(s).cpus[c];
      y.current == x.current && y.idle == x.idle && y.destroy == x.destroy && y.started == x.started
  {
    hide Balanced;
  }

  lemma RebalanceKeeps(s: State)
    requires Inv(s, -1)
    ensures Inv(Rebalance(s), -1)
  {
    hide Places, Balanced, WithQueues, Idles;
    var s' := Rebalance(s);
    RebalancePlaces(s.cpus);
    assert |s'.cpus| == |s.cpus| by { RebalanceLength(s); }
    forall c | 0 <= c < |s'.cpus|
      ensures CpuOk(s'.threads, Idles(s.cpus), s'.cpus[c], false)
      ensures s'.cpus[c].current == s.cpus[c].current && s'.cpus[c].idle == s.cpus[c].idle && s'.cpus[c].started == s.cpus[c].started
    {
      RebalancedCpu(s, c);
    }
    SameIdles(s.cpus, s'.cpus);
    forall c, d | 0 <= c < |s'.cpus| && 0 <= d < |s'.cpus| && !s'.cpus[d].started ensures s'.cpus[d].idle !in s'.cpus[c].queue {
      if s'.cpus[d].idle in s'.cpus[c].queue { var b := RebalancedQueue(s, c, s'.cpus[d].idle); }
    }
    forall u | u in s'.threads && s'.threads[u] == Running ensures IsCurrent(s'.cpus, u) {
      var d :| 0 <= d < |s.cpus| && s.cpus[d].current == Some(u);
      assert s'.cpus[d].current == Some(u);
    }
  }

  lemma RebalancedCpu(s: State, c: nat)
    requires Inv(s, -1) && c < |s.cpus|
    ensures CpuOk(s.threads, Idles(s.cpus), Rebalance(s).cpus[c], false)
    ensures var x, y := s.cpus[c], Rebalance(s).cpus[c]; y.current == x.current && y.idle == x.idle && y.started == x.started
  {
    hide Inv, Rebalance, Idles;
    RebalanceFields(s, c);
    var y := Rebalance(s).cpus[c];
    CpuKnown(s, -1, c);
    forall t | t in y.queue ensures t in s.threads && (s.threads[t] == Stopped || (s.threads[t] == Running && t in Idles(s.cpus))) {
      var d := RebalancedQueue(s, c, t);
      CpuKnown(s, -1, d);
    }
  }

  lemma RebalanceLength(s: State)
    ensures |Rebalance(s).cpus| == |s.cpus|
  {
    hide Balanced;
  }
}

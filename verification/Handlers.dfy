/** What each step of the scheduler does, thread by thread and queue by queue, in terms of the state before it. */
module Handlers {
  import opened Common
  import opened Balance
  import opened Picking
  import opened Scheduling
  import opened Scheduler

  /** CPU c takes its next thread from CPU f: itself, or, when it has none, the first other one that has some and is not held. */
  ghost predicate TakesFrom(cpus: seq<Cpu>, c: nat, held: set<nat>, f: nat) {
    && c < |cpus| && f < |cpus| && cpus[f].queue != []
    && (f == c || (cpus[c].queue == [] && f !in held && forall d :: 0 <= d < f && d != c && d !in held ==> cpus[d].queue == []))
  }

  /** No CPU that is not held has a thread to give, nor has c. */
  ghost predicate NothingLeft(cpus: seq<Cpu>, c: nat, held: set<nat>) {
    forall d :: 0 <= d < |cpus| && (d == c || d !in held) ==> cpus[d].queue == []
  }

  /** The i-th thread is the first one that is stopped. */
  ghost predicate FirstInLine(q: seq<Tid>, threads: map<Tid, ThreadState>, i: nat) {
    && i < |q| && (forall j :: 0 <= j <= i ==> q[j] in threads)
    && threads[q[i]] == Stopped && forall j :: 0 <= j < i ==> threads[q[j]] != Stopped
  }

  /** CPU c enters thread t; nothing else about the CPUs changes but their queues. */
  ghost predicate Enters(s: State, s': State, c: nat, t: Tid) {
    && |s'.cpus| == |s.cpus| && s'.threads == s.threads[t := Running] && s'.live == s.live
    && forall d :: 0 <= d < |s.cpus| ==>
      && s'.cpus[d].current == (if d == c then Some(t) else s.cpus[d].current)
      && s'.cpus[d].idle == s.cpus[d].idle && s'.cpus[d].destroy == s.cpus[d].destroy && s'.cpus[d].started == s.cpus[d].started
  }

  /** The queues are qs, or balanced from there at every hundredth tick; while another CPU is balancing the tick goes on
      growing, so that the next switch tries again. */
  ghost predicate QueuesNow(tick: nat, s': State, qs: Queues, busy: bool) {
    && |s'.cpus| == |qs|
    && if tick + 1 >= 100 && !busy
       then s'.tick == 0 && forall d :: 0 <= d < |qs| ==> s'.cpus[d].queue == Balanced(qs)[d]
       else s'.tick == tick + 1 && forall d :: 0 <= d < |qs| ==> s'.cpus[d].queue == qs[d]
  }

  lemma FirstIs(q: seq<Tid>, threads: map<Tid, ThreadState>, i: nat)
    requires NoneKilled(q, threads) && FirstInLine(q, threads, i)
    ensures FirstStopped(q, threads) == i
  {
    var j := FirstStopped(q, threads);
    assert !(j < i) && !(i < j);
  }

  lemma SourceIs(cpus: seq<Cpu>, c: nat, held: set<nat>, f: nat)
    requires TakesFrom(cpus, c, held, f)
    ensures Source(cpus, c, held) == Some(f)
  {
    if cpus[c].queue == [] {
      var g := FirstQueued(cpus, c, held, 0);
      assert g.Some?;
      assert !(g.value < f) && !(f < g.value);
    }
  }

  lemma BalancedState(s: State, qs: Queues, busy: bool)
    requires QueuesOf(s.cpus) == qs
    ensures QueuesNow(s.tick, Ticked(s, busy), qs, busy)
    ensures |Ticked(s, busy).cpus| == |s.cpus| && Ticked(s, busy).threads == s.threads && Ticked(s, busy).live == s.live
    ensures forall d :: 0 <= d < |s.cpus| ==>
      && Ticked(s, busy).cpus[d].current == s.cpus[d].current && Ticked(s, busy).cpus[d].idle == s.cpus[d].idle
      && Ticked(s, busy).cpus[d].destroy == s.cpus[d].destroy && Ticked(s, busy).cpus[d].started == s.cpus[d].started
  {
    hide Balanced;
    assert forall d :: 0 <= d < |s.cpus| ==> s.cpus[d].queue == qs[d];
  }

  /** switchNext where there is a stopped thread to take. */
  lemma SwitchTakes(s: State, c: nat, held: Held, f: nat, i: nat)
    requires Inv(s, c) && c < |s.cpus| && TakesFrom(s.cpus, c, held.queues, f) && FirstInLine(s.cpus[f].queue, s.threads, i)
    ensures var o, q := OnFrom(s, c, held), s.cpus[f].queue;
      o.Ok? && Enters(s, o.state, c, q[i]) && QueuesNow(s.tick, o.state, QueuesOf(s.cpus)[f := q[i + 1..] + q[..i]], held.balance)
  {
    hide Inv, FirstStopped, Balanced, TakesFrom, FirstInLine, Source, Ticked, Rebalance;
    InvQueued(s, c);
    SourceIs(s.cpus, c, held.queues, f);
    assert f < |s.cpus| && i < |s.cpus[f].queue| by { hide *; TakesInside(s, c, held.queues, f, i); }
    FirstIs(s.cpus[f].queue, s.threads, i);
    var t := Take(s, f, c);
    assert QueuesOf(t.cpus) == QueuesOf(s.cpus)[f := Rotated(s.cpus[f].queue, i)];
    BalancedState(t, QueuesOf(t.cpus), held.balance);
  }

  lemma TakesInside(s: State, c: nat, held: set<nat>, f: nat, i: nat)
    requires TakesFrom(s.cpus, c, held, f) && FirstInLine(s.cpus[f].queue, s.threads, i)
    ensures f < |s.cpus| && i < |s.cpus[f].queue|
  {
  }

  /** switchNext where there is nothing to take: the idle thread, which must be stopped; the balance tick stands still. */
  lemma SwitchIdles(s: State, c: nat, held: Held)
    requires Inv(s, c) && c < |s.cpus| && NothingLeft(s.cpus, c, held.queues)
    ensures var o, t := OnFrom(s, c, held), s.cpus[c].idle;
      && t in s.threads
      && (s.threads[t] == Stopped ==> o.Ok? && Enters(s, o.state, c, t) && o.state.tick == s.tick && QueuesOf(o.state.cpus) == QueuesOf(s.cpus))
      && (s.threads[t] != Stopped ==> o == AssertFails)
  {
    hide Inv;
    InvQueued(s, c);
    assert Nothing(s.cpus, c, held.queues);
  }

  // ----- the handlers -----

  /** A tick: the current thread goes to the back of its CPU's own queue, and the first stopped thread of that
      queue runs, those before it going to the back after it. */
  lemma TickDoes(s: State, c: nat, held: Held) returns (i: nat)
    requires Inv(s, -1) && Enabled(s, Tick(c, held))
    ensures var cur := s.cpus[c].current.value;
      var q := s.cpus[c].queue + [cur];
      var left := s.(threads := s.threads[cur := Stopped], cpus := s.cpus[c := s.cpus[c].(queue := q, current := None)]);
      && FirstInLine(q, left.threads, i) && Step(s, Tick(c, held)).Ok?
      && Enters(left, Step(s, Tick(c, held)).state, c, q[i])
      && QueuesNow(s.tick, Step(s, Tick(c, held)).state, QueuesOf(s.cpus)[c := q[i + 1..] + q[..i]], held.balance)
  {
    hide Inv, Balanced, Idles, OnFrom;
    LeaveKeeps(s, c);
    var cur := s.cpus[c].current.value;
    var left := Leave(s, c);
    InvQueued(left, c);
    var q := left.cpus[c].queue;
    assert q[|q| - 1] == cur && left.threads[cur] == Stopped;
    i := FirstStopped(q, left.threads);
    SwitchTakes(left, c, held, c, i);
    assert QueuesOf(left.cpus)[c := q[i + 1..] + q[..i]] == QueuesOf(s.cpus)[c := q[i + 1..] + q[..i]];
  }

  /** A yield does what a tick does. */
  lemma YieldIsTick(s: State, c: nat, held: Held)
    requires Inv(s, -1) && Enabled(s, Tick(c, held))
    ensures Enabled(s, Yield(c, held)) && Step(s, Yield(c, held)) == Step(s, Tick(c, held))
  {
    hide Inv, Idles;
  }

  /** An exit: the current thread goes to the back of its CPU's destroy queue, and the CPU takes the first stopped thread
      of its own queue or, if that is empty, of the first other queue that is not empty and not held. */
  lemma ExitDoes(s: State, c: nat, held: Held, f: nat, i: nat)
    requires Inv(s, -1) && Enabled(s, Exit(c, held)) && TakesFrom(s.cpus, c, held.queues, f)
    requires FirstInLine(s.cpus[f].queue, s.threads[s.cpus[c].current.value := Killed], i)
    ensures var cur, q := s.cpus[c].current.value, s.cpus[f].queue;
      var left := s.(threads := s.threads[cur := Killed], cpus := s.cpus[c := s.cpus[c].(destroy := s.cpus[c].destroy + [cur], current := None)]);
      && Step(s, Exit(c, held)).Ok? && Enters(left, Step(s, Exit(c, held)).state, c, q[i])
      && QueuesNow(s.tick, Step(s, Exit(c, held)).state, QueuesOf(s.cpus)[f := q[i + 1..] + q[..i]], held.balance)
  {
    hide Inv, Balanced, Idles, OnFrom;
    KillKeeps(s, c);
    var left := Kill(s, c);
    assert forall d :: 0 <= d < |s.cpus| ==> left.cpus[d].queue == s.cpus[d].queue;
    SwitchTakes(left, c, held, f, i);
    assert QueuesOf(left.cpus) == QueuesOf(s.cpus);
  }

  /** ... and its idle thread if there is none: that must be stopped. */
  lemma ExitIdles(s: State, c: nat, held: Held)
    requires Inv(s, -1) && Enabled(s, Exit(c, held)) && NothingLeft(s.cpus, c, held.queues)
    ensures var cur, t, o := s.cpus[c].current.value, s.cpus[c].idle, Step(s, Exit(c, held));
      var left := s.(threads := s.threads[cur := Killed], cpus := s.cpus[c := s.cpus[c].(destroy := s.cpus[c].destroy + [cur], current := None)]);
      && t in s.threads
      && (s.threads[t] == Stopped ==> o.Ok? && Enters(left, o.state, c, t) && o.state.tick == s.tick && QueuesOf(o.state.cpus) == QueuesOf(s.cpus))
      && (s.threads[t] != Stopped ==> o == AssertFails)
  {
    hide Inv, OnFrom;
    KillKeeps(s, c);
    var left := Kill(s, c);
    CpuKnown(s, -1, c);
    assert forall d :: 0 <= d < |s.cpus| ==> left.cpus[d].queue == s.cpus[d].queue;
    SwitchIdles(left, c, held);
    assert QueuesOf(left.cpus) == QueuesOf(s.cpus);
  }

  /** A start: the CPU leaves its idle thread, which is in no queue, and takes a thread as after an exit. */
  lemma StartDoes(s: State, c: nat, held: Held, f: nat, i: nat)
    requires Inv(s, -1) && Enabled(s, Start(c, held)) && TakesFrom(s.cpus, c, held.queues, f) && FirstInLine(s.cpus[f].queue, s.threads, i)
    ensures var q := s.cpus[f].queue;
      var left := s.(cpus := s.cpus[c := s.cpus[c].(current := None, started := true)]);
      && Step(s, Start(c, held)).Ok? && Enters(left, Step(s, Start(c, held)).state, c, q[i])
      && QueuesNow(s.tick, Step(s, Start(c, held)).state, QueuesOf(s.cpus)[f := q[i + 1..] + q[..i]], held.balance)
  {
    hide Inv, Balanced, OnFrom;
    ParkKeeps(s, c);
    var left := Park(s, c);
    assert forall d :: 0 <= d < |s.cpus| ==> left.cpus[d].queue == s.cpus[d].queue;
    SwitchTakes(left, c, held, f, i);
    assert QueuesOf(left.cpus) == QueuesOf(s.cpus);
  }

  lemma StartIdles(s: State, c: nat, held: Held)
    requires Inv(s, -1) && Enabled(s, Start(c, held)) && NothingLeft(s.cpus, c, held.queues)
    ensures var o := Step(s, Start(c, held));
      var left := s.(cpus := s.cpus[c := s.cpus[c].(current := None, started := true)]);
      o.Ok? && Enters(left, o.state, c, s.cpus[c].idle) && o.state.tick == s.tick && QueuesOf(o.state.cpus) == QueuesOf(s.cpus)
  {
    hide Inv, OnFrom;
    ParkKeeps(s, c);
    var left := Park(s, c);
    CpuKnown(s, -1, c);
    assert forall d :: 0 <= d < |s.cpus| ==> left.cpus[d].queue == s.cpus[d].queue;
    SwitchIdles(left, c, held);
    assert QueuesOf(left.cpus) == QueuesOf(s.cpus);
  }

  /** A new thread is stopped and comes last in the queue of the CPU that adds it; everything else stays. */
  lemma AddDoes(s: State, c: nat, t: Tid)
    requires Inv(s, -1) && Enabled(s, AddThread(c, t))
    ensures Step(s, AddThread(c, t)) ==
      Ok(s.(threads := s.threads[t := Stopped], live := s.live + {t}, cpus := s.cpus[c := s.cpus[c].(queue := s.cpus[c].queue + [t])]))
  {
    hide Inv, Idles;
  }

  /** The destroyer takes the thread that exited first; everything else stays. */
  lemma ReapDoes(s: State, c: nat)
    requires c < |s.cpus| && s.cpus[c].destroy != [] && Inv(s, -1)
    ensures var t := s.cpus[c].destroy[0];
      Enabled(s, Reap(c)) && Step(s, Reap(c)) ==
      Ok(s.(threads := s.threads - {t}, live := s.live - {t}, cpus := s.cpus[c := s.cpus[c].(destroy := s.cpus[c].destroy[1..])]))
  {
    hide Inv;
  }

  /** A balancing that another CPU's keeps out is not lost: the next switch makes up for it. */
  lemma BusyRetries(s: State)
    requires s.tick + 1 >= 100
    ensures Ticked(s, true) == s.(tick := s.tick + 1)
    ensures var r := Ticked(Ticked(s, true), false); r.tick == 0 && QueuesOf(r.cpus) == Balanced(QueuesOf(s.cpus))
  {
    hide Balanced;
    var r := Ticked(Ticked(s, true), false);
    assert QueuesOf(r.cpus) == Balanced(QueuesOf(s.cpus));
  }
}

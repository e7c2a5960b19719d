/** The scheduler's code, one handler at a time, and its agreement with the steps of the state machine.
    Other CPUs take part only by holding locks that are tried for. */
module Processors {
  import opened Common
  import opened Balance
  import opened Picking
  import opened Scheduling
  import opened Scheduler

  /** Queue lengths fit the kernel's 64-bit sizes with room to spare. */
  predicate Small(cpus: seq<Cpu>) {
    forall c :: 0 <= c < |cpus| ==> |cpus[c].queue| < 0x1_0000_0000
  }

  /** Each queue has room for one more thread. */
  predicate Roomy(cpus: seq<Cpu>) {
    forall c :: 0 <= c < |cpus| ==> |cpus[c].queue| + 1 < 0x1_0000_0000
  }

  /** The state with CPU c between two threads, the one it leaves no longer running. */
  function Between(s: State, c: nat): State
    requires c < |s.cpus|
  {
    var cur := s.cpus[c].current;
    s.(threads := if cur.Some? && cur.value in s.threads && s.threads[cur.value] == Running
                  then s.threads[cur.value := Stopped] else s.threads,
       cpus := s.cpus[c := s.cpus[c].(current := None)])
  }

  function Requeued(cpus: seq<Cpu>, f: nat, q: seq<Tid>): seq<Cpu>
    requires f < |cpus|
  {
    cpus[f := cpus[f].(queue := q)]
  }

  function Seated(cpus: seq<Cpu>, c: nat, t: Tid): seq<Cpu>
    requires c < |cpus|
  {
    cpus[c := cpus[c].(current := Some(t))]
  }

  /** Balancing looks at queues only, so it does not matter that the picked thread is seated after
      it. */
  lemma SeatAfterBalance(cpus: seq<Cpu>, c: nat, t: Tid)
    requires c < |cpus|
    ensures var b := (x: seq<Cpu>) => WithQueues(x, Balanced(QueuesOf(x)));
      |b(cpus)| == |cpus| && Seated(b(cpus), c, t) == b(Seated(cpus, c, t))
  {
    hide Balanced;
    assert QueuesOf(Seated(cpus, c, t)) == QueuesOf(cpus);
  }

  /** How a handler ends: in another thread, in a failed assert, or in a pop loop for ever. */
  datatype Result = Switched | AssertFailed | Stuck

  predicate Agrees(r: Result, now: State, o: Outcome) {
    match o
    case Ok(s) => r == Switched && now == s
    case AssertFails => r == AssertFailed
    case LoopsForever => r == Stuck
  }

  class Processors {
    var cpus: seq<Cpu>
    var threads: map<Tid, ThreadState>
    var balanceTick: nat
    ghost var live: set<Tid>

    constructor (s: State)
      ensures Now() == s
    {
      cpus, threads, balanceTick, live := s.cpus, s.threads, s.tick, s.live;
    }

    ghost function Now(): State
      reads this
    {
      State(cpus, threads, balanceTick, live)
    }

    /** The pop loop of switchNext on one queue, where it ends. */
    method PickFrom(f: nat) returns (thread: Option<Tid>)
      requires f < |cpus| && CanPick(cpus[f].queue, threads)
      modifies `cpus
      ensures var p := old(Picked(cpus[f].queue, threads)); thread == p.thread && cpus == Requeued(old(cpus), f, p.queue)
    {
      hide FirstStopped;
      thread := None;
      ghost var q, cpus0 := cpus[f].queue, cpus;
      while cpus[f].queue != [] && thread.None?
        invariant f < |cpus| && cpus == Requeued(cpus0, f, cpus[f].queue)
        invariant thread.None? ==> CanPick(cpus[f].queue, threads) && Picked(cpus[f].queue, threads) == Picked(q, threads)
        invariant thread.Some? ==> Loop(thread, cpus[f].queue) == Picked(q, threads)
        decreases thread.None?, if thread.None? then FirstStopped(cpus[f].queue, threads) else 0
      {
        ghost var before := cpus[f].queue;
        var t := cpus[f].queue[0];
        cpus := cpus[f := cpus[f].(queue := cpus[f].queue[1..])];
        thread := Some(t);
        if threads[t] != Stopped {
          RestPickable(before, threads);
          if threads[t] != Killed {
            cpus := cpus[f := cpus[f].(queue := cpus[f].queue + [t])];
          }
          thread := None;
        }
      }
    }

    /** The pop loop on a queue without killed threads; stuck where it never ends (Picking.EndsExactly). */
    method PickOrSpin(f: nat) returns (stuck: bool, thread: Option<Tid>)
      requires f < |cpus| && cpus[f].queue != [] && NoneKilled(cpus[f].queue, threads)
      modifies `cpus
      ensures stuck <==> !LoopEnds(old(cpus[f].queue), threads)
      ensures stuck <==> FirstStopped(old(cpus[f].queue), threads) == |old(cpus[f].queue)|
      ensures !stuck ==>
        var q, i := old(cpus[f].queue), FirstStopped(old(cpus[f].queue), threads);
        thread == Some(q[i]) && cpus == Requeued(old(cpus), f, Rotated(q, i))
      ensures stuck ==> cpus == old(cpus)
    {
      hide FirstStopped, LoopEnds, Picked;
      EndsExactly(cpus[f].queue, threads);
      NothingToPick(cpus[f].queue, threads);
      if !CanPick(cpus[f].queue, threads) { return true, None; }
      PickedIs(cpus[f].queue, threads);
      thread := PickFrom(f);
      stuck := false;
    }

    /** The choice of the next thread: own queue, or stealing from the first that has one and is not held. */
    method Pick(c: nat, held: set<nat>) returns (stuck: bool, thread: Option<Tid>)
      requires c < |cpus| && Queued(Now())
      modifies `cpus
      ensures var f := Source(old(cpus), c, held);
        if f.None? then !stuck && thread.None? && cpus == old(cpus)
        else
          var q := old(cpus)[f.value].queue;
          var i := FirstStopped(q, threads);
          && (stuck <==> i == |q|)
          && (!stuck ==> thread == Some(q[i]) && cpus == Requeued(old(cpus), f.value, Rotated(q, i)))
    {
      hide FirstStopped, LoopEnds;
      stuck, thread := false, None;
      if cpus[c].queue == [] {
        ghost var cpus0 := cpus;
        for i := 0 to |cpus|
          invariant cpus == cpus0 && thread.None? && !stuck
          invariant FirstQueued(cpus0, c, held, 0) == FirstQueued(cpus0, c, held, i)
        {
          if i == c || cpus[i].queue == [] { continue; }
          if i in held { continue; }
          stuck, thread := PickOrSpin(i);
          return;
        }
      } else {
        stuck, thread := PickOrSpin(c);
      }
    }

    /** switchTo; false where its assert fails. */
    method SwitchTo(c: nat, t: Tid) returns (ok: bool)
      requires c < |cpus| && t in threads
      modifies `cpus, `threads
      ensures ok <==> old(threads)[t] == Stopped
      ensures ok ==> threads == old(threads)[t := Running] && cpus == Seated(old(cpus), c, t)
    {
      cpus := cpus[c := cpus[c].(current := Some(t))];
      if threads[t] != Stopped { return false; }
      threads := threads[t := Running];
      ok := true;
    }

    method DoBalance()
      requires Small(cpus)
      modifies `cpus
      ensures cpus == WithQueues(old(cpus), Balanced(QueuesOf(old(cpus))))
    {
      hide Balanced;
      var r := BalanceQueues(QueuesOf(cpus));
      cpus := WithQueues(cpus, r);
    }

    /** The part of switchNext after a thread was found: the balance tick, and on to the thread. */
    method TickAndSwitch(c: nat, t: Tid, busy: bool, ghost s: State)
      requires c < |cpus| && t in threads && threads[t] == Stopped && Small(cpus)
      requires s == State(Seated(cpus, c, t), threads[t := Running], balanceTick, live)
      modifies `cpus, `threads, `balanceTick
      ensures Now() == Ticked(s, busy)
    {
      hide Balanced, WithQueues, QueuesOf;
      balanceTick := balanceTick + 1;
      if balanceTick >= BALANCE_PERIOD && !busy {
        balanceTick := 0;
        SeatAfterBalance(cpus, c, t);
        DoBalance();
      }
      var ok := SwitchTo(c, t);
    }

    /** switchNext on CPU c. */
    method DoSwitchNext(c: nat, held: Held) returns (r: Result)
      requires c < |cpus| && Small(cpus) && Inv(Between(Now(), c), c)
      modifies `cpus, `threads, `balanceTick
      ensures old(Queued(Between(Now(), c)) && cpus[c].idle in Between(Now(), c).threads && Between(Now(), c).cpus[c].idle == cpus[c].idle)
      ensures Agrees(r, Now(), SwitchNext(old(Between(Now(), c)), c, held))
    {
      hide Inv, FirstStopped, Rotated, Ticked, SwitchNext, Source;
      ghost var s := Between(Now(), c);
      InvQueued(s, c);
      var cur := cpus[c].current;
      if cur.Some? && cur.value in threads && threads[cur.value] == Running {
        threads := threads[cur.value := Stopped];
      }
      SameQueued(s, Now(), c);
      ghost var cpus0 := cpus;
      var stuck, thread := Pick(c, held.queues);
      SwitchIs(s, cpus0, c, held);
      if stuck { return Stuck; }
      if thread.None? {
        var ok := SwitchTo(c, cpus[c].idle);
        return if ok then Switched else AssertFailed;
      }
      ghost var f := Source(cpus0, c, held.queues).value;
      FoundStopped(cpus0[f].queue, threads);
      SmallAfterPick(cpus0, f, FirstStopped(cpus0[f].queue, threads));
      TickAndSwitch(c, thread.value, held.balance, TakenFrom(s, cpus0, f, c));
      r := Switched;
    }

    /** schedulerTickHandler; its asserts hold. */
    method TickHandler(c: nat, held: Held) returns (r: Result)
      requires Inv(Now(), -1) && Enabled(Now(), Tick(c, held)) && Roomy(cpus)
      modifies `cpus, `threads, `balanceTick
      ensures r == Switched && Step(old(Now()), Tick(c, held)) == Ok(Now())
    {
      r := StopAndSwitch(c, held);
    }

    /** schedulerYieldHandler does the same. */
    method YieldHandler(c: nat, held: Held) returns (r: Result)
      requires Inv(Now(), -1) && Enabled(Now(), Yield(c, held)) && Roomy(cpus)
      modifies `cpus, `threads, `balanceTick
      ensures r == Switched && Step(old(Now()), Yield(c, held)) == Ok(Now())
    {
      r := StopAndSwitch(c, held);
    }

    method StopAndSwitch(c: nat, held: Held) returns (r: Result)
      requires Inv(Now(), -1) && Runs(Now(), c) && Roomy(cpus)
      modifies `cpus, `threads, `balanceTick
      ensures r == Switched && Step(old(Now()), Tick(c, held)) == Ok(Now())
    {
      hide Inv, SwitchNext, Idles;
      ghost var s := Now();
      CpuKnown(s, -1, c);
      LeaveKeeps(s, c);
      InvQueued(Leave(s, c), c);
      FailsExactly(s, Tick(c, held));
      LoopsExactly(s, Tick(c, held));
      var t := cpus[c].current.value;
      assert threads[t] == Running;
      threads := threads[t := Stopped];
      cpus := cpus[c := cpus[c].(queue := cpus[c].queue + [t])];
      assert Between(Now(), c) == Leave(s, c) by { assert Between(Now(), c).cpus == Leave(s, c).cpus; }
      r := DoSwitchNext(c, held);
    }

    /** exit of the current thread. */
    method DoExit(c: nat, held: Held) returns (r: Result)
      requires Inv(Now(), -1) && Enabled(Now(), Exit(c, held)) && Roomy(cpus)
      modifies `cpus, `threads, `balanceTick
      ensures Agrees(r, Now(), Step(old(Now()), Exit(c, held)))
    {
      hide Inv, SwitchNext, Idles;
      ghost var s := Now();
      KillKeeps(s, c);
      InvQueued(Kill(s, c), c);
      var t := cpus[c].current.value;
      threads := threads[t := Killed];
      cpus := cpus[c := cpus[c].(destroy := cpus[c].destroy + [t])];
      assert Between(Now(), c) == Kill(s, c) by { assert Between(Now(), c).cpus == Kill(s, c).cpus; }
      r := DoSwitchNext(c, held);
    }

    /** start on a CPU whose current thread is its idle thread, not yet running. */
    method DoStart(c: nat, held: Held) returns (r: Result)
      requires Inv(Now(), -1) && Enabled(Now(), Start(c, held)) && Roomy(cpus)
      modifies `cpus, `threads, `balanceTick
      ensures Agrees(r, Now(), Step(old(Now()), Start(c, held))) && r != AssertFailed
    {
      hide Inv, SwitchNext, Idles;
      ghost var s := Now();
      CpuKnown(s, -1, c);
      ParkKeeps(s, c);
      InvQueued(Park(s, c), c);
      FailsExactly(s, Start(c, held));
      cpus := cpus[c := cpus[c].(started := true)];
      assert Between(Now(), c) == Park(s, c) by { assert Between(Now(), c).cpus == Park(s, c).cpus; }
      r := DoSwitchNext(c, held);
    }

    /** createThread's last steps and addThread. */
    method DoAddThread(c: nat, t: Tid)
      requires Inv(Now(), -1) && Enabled(Now(), AddThread(c, t))
      modifies `cpus, `threads, `live
      ensures Step(old(Now()), AddThread(c, t)) == Ok(Now())
    {
      hide Inv, Idles;
      threads := threads[t := Stopped];
      live := live + {t};
      cpus := cpus[c := cpus[c].(queue := cpus[c].queue + [t])];
    }

    /** One round of the destroyer thread: its assert holds, and replaceAll finds nothing, since a
        killed thread is in no run queue. */
    method DoReap(c: nat) returns (t: Tid)
      requires Inv(Now(), -1) && Enabled(Now(), Reap(c))
      modifies `cpus, `threads, `live
      ensures Step(old(Now()), Reap(c)) == Ok(Now())
      ensures old(t in threads && threads[t] == Killed && t !in cpus[c].queue) && t !in threads
    {
      hide Inv;
      ghost var s := Now();
      ReapedThread(s, c);
      t := cpus[c].destroy[0];
      assert threads[t] == Killed && t !in cpus[c].queue;
      cpus := cpus[c := cpus[c].(destroy := cpus[c].destroy[1..])];
      threads := threads - {t};
      live := live - {t};
    }
  }

  /** Being queued does not depend on current threads. */
  lemma SameQueued(s: State, s': State, c: nat)
    requires c < |s'.cpus| && s.cpus == s'.cpus[c := s'.cpus[c].(current := None)] && s'.threads == s.threads && Queued(s)
    ensures Queued(s')
  {
    hide NoneKilled;
    forall d | 0 <= d < |s'.cpus| ensures NoneKilled(s'.cpus[d].queue, s'.threads) {
      assert NoneKilled(s.cpus[d].queue, s.threads);
    }
  }

  lemma SmallAfterPick(cpus: seq<Cpu>, f: nat, i: nat)
    requires Small(cpus) && f < |cpus| && i < |cpus[f].queue|
    ensures Small(Requeued(cpus, f, Rotated(cpus[f].queue, i)))
  {
  }

  lemma FoundStopped(q: seq<Tid>, threads: map<Tid, ThreadState>)
    requires NoneKilled(q, threads) && FirstStopped(q, threads) < |q|
    ensures var t := q[FirstStopped(q, threads)]; t in threads && threads[t] == Stopped
  {
  }

  /** Taking a thread is rotating it out and seating it, whoever sat there before. */
  function TakenFrom(s: State, cpus: seq<Cpu>, f: nat, c: nat): State
    requires c < |cpus| && f < |cpus| && Known(cpus[f].queue, s.threads) && FirstStopped(cpus[f].queue, s.threads) < |cpus[f].queue|
  {
    var q := cpus[f].queue;
    var i := FirstStopped(q, s.threads);
    s.(threads := s.threads[q[i] := Running], cpus := Seated(Requeued(cpus, f, Rotated(q, i)), c, q[i]))
  }

  /** The abstract switch, in terms of the CPUs before the current thread was left. */
  lemma SwitchIs(s: State, cpus: seq<Cpu>, c: nat, held: Held)
    requires c < |cpus| == |s.cpus| && s.cpus == cpus[c := cpus[c].(current := None)] && Queued(s) && s.cpus[c].idle in s.threads
    requires forall d :: 0 <= d < |cpus| ==> Known(cpus[d].queue, s.threads) && NoneKilled(cpus[d].queue, s.threads)
    ensures var f := Source(cpus, c, held.queues);
      if f.None? then
        SwitchNext(s, c, held) == if s.threads[cpus[c].idle] == Stopped then Ok(s.(threads := s.threads[cpus[c].idle := Running], cpus := Seated(cpus, c, cpus[c].idle))) else AssertFails
      else if FirstStopped(cpus[f.value].queue, s.threads) == |cpus[f.value].queue| then SwitchNext(s, c, held) == LoopsForever
      else SwitchNext(s, c, held) == Ok(Ticked(TakenFrom(s, cpus, f.value, c), held.balance))
  {
    hide Ticked, FirstStopped, Rotated;
    SameSource(s.cpus, cpus, c, held.queues);
    var f := Source(cpus, c, held.queues);
    if f.Some? { TakeIs(s, cpus, f.value, c); }
  }

  lemma TakeIs(s: State, cpus: seq<Cpu>, f: nat, c: nat)
    requires c < |cpus| == |s.cpus| && f < |cpus| && s.cpus == cpus[c := cpus[c].(current := None)]
    requires NoneKilled(cpus[f].queue, s.threads)
    ensures HasStopped(s, f) <==> FirstStopped(cpus[f].queue, s.threads) < |cpus[f].queue|
    ensures HasStopped(s, f) ==> Take(s, f, c) == TakenFrom(s, cpus, f, c)
  {
  }
}

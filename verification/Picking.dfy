/** The pop loop of switchNext on one run queue: what it finds, what it leaves, and when it ends. */
module Picking {
  import opened Common
  import opened Balance

  datatype ThreadState = Stopped | Running | Killed

  predicate Known(q: seq<Tid>, threads: map<Tid, ThreadState>) {
    forall i :: 0 <= i < |q| ==> q[i] in threads
  }

  /** The place of the first stopped thread, or the length of the queue. */
  function FirstStopped(q: seq<Tid>, threads: map<Tid, ThreadState>): (i: nat)
    requires Known(q, threads)
    ensures i <= |q| && (i < |q| ==> threads[q[i]] == Stopped)
    ensures forall j :: 0 <= j < i ==> threads[q[j]] != Stopped
  {
    if q == [] || threads[q[0]] == Stopped then 0 else 1 + FirstStopped(q[1..], threads)
  }

  // ----- the loop, a round at a time -----

  datatype Loop = Loop(thread: Option<Tid>, queue: seq<Tid>)

  predicate Over(l: Loop) {
    l.queue == [] || l.thread.Some?
  }

  /** One round: a stopped thread is taken, a killed one dropped, a running one put back. */
  function Round(l: Loop, threads: map<Tid, ThreadState>): (r: Loop)
    requires !Over(l) && Known(l.queue, threads)
    ensures Known(r.queue, threads)
  {
    var t, rest := l.queue[0], l.queue[1..];
    match threads[t]
    case Stopped => Loop(Some(t), rest)
    case Killed => Loop(None, rest)
    case Running => Loop(None, rest + [t])
  }

  function Rounds(l: Loop, threads: map<Tid, ThreadState>, k: nat): Loop
    requires Known(l.queue, threads)
    decreases k
  {
    if k == 0 || Over(l) then l else Rounds(Round(l, threads), threads, k - 1)
  }

  /** There is a stopped thread to find, or nothing that is put back. */
  predicate CanPick(q: seq<Tid>, threads: map<Tid, ThreadState>) {
    && Known(q, threads)
    && (FirstStopped(q, threads) == |q| ==> forall i :: 0 <= i < |q| ==> threads[q[i]] == Killed)
  }

  /** What the loop finds and leaves when it ends. */
  function Picked(q: seq<Tid>, threads: map<Tid, ThreadState>): Loop
    requires CanPick(q, threads)
    decreases FirstStopped(q, threads)
  {
    if q == [] then Loop(None, [])
    else if threads[q[0]] == Stopped then Loop(Some(q[0]), q[1..])
    else (RestPickable(q, threads); Picked(Round(Loop(None, q), threads).queue, threads))
  }

  lemma RestPickable(q: seq<Tid>, threads: map<Tid, ThreadState>)
    requires CanPick(q, threads) && q != [] && threads[q[0]] != Stopped
    ensures var r := Round(Loop(None, q), threads);
      r.thread.None? && CanPick(r.queue, threads) && FirstStopped(r.queue, threads) < FirstStopped(q, threads)
  {
    assert FirstStopped(q, threads) == 1 + FirstStopped(q[1..], threads);
    if threads[q[0]] == Running {
      AppendKeepsFirst(q[1..], q[0], threads);
    }
  }

  lemma {:induction false} AppendKeepsFirst(q: seq<Tid>, t: Tid, threads: map<Tid, ThreadState>)
    requires Known(q, threads) && t in threads && FirstStopped(q, threads) < |q|
    ensures Known(q + [t], threads) && FirstStopped(q + [t], threads) == FirstStopped(q, threads)
  {
    if threads[q[0]] != Stopped {
      assert (q + [t])[1..] == q[1..] + [t];
      AppendKeepsFirst(q[1..], t, threads);
    }
  }

  lemma {:induction false} Ends(q: seq<Tid>, threads: map<Tid, ThreadState>) returns (k: nat)
    requires CanPick(q, threads)
    ensures Rounds(Loop(None, q), threads, k) == Picked(q, threads) && Over(Picked(q, threads))
    decreases FirstStopped(q, threads)
  {
    k := 0;
    if q != [] {
      var r := Round(Loop(None, q), threads);
      if threads[q[0]] == Stopped {
        k := 1;
        assert Rounds(r, threads, 0) == r;
      } else {
        RestPickable(q, threads);
        var n := Ends(r.queue, threads);
        k := n + 1;
      }
    }
  }

  lemma {:induction false} NeverEnds(q: seq<Tid>, threads: map<Tid, ThreadState>, i: nat, k: nat)
    requires Known(q, threads) && i < |q| && threads[q[i]] == Running
    requires forall j :: 0 <= j < |q| ==> threads[q[j]] != Stopped
    ensures !Over(Rounds(Loop(None, q), threads, k))
    decreases k
  {
    if k > 0 {
      var r := Round(Loop(None, q), threads);
      NeverEnds(r.queue, threads, if i == 0 then |r.queue| - 1 else i - 1, k - 1);
    }
  }

  ghost predicate LoopEnds(q: seq<Tid>, threads: map<Tid, ThreadState>)
    requires Known(q, threads)
  {
    exists k :: Over(Rounds(Loop(None, q), threads, k))
  }

  /** The loop ends exactly on a queue with a stopped thread or with killed ones only; a queue that
      holds nothing but running threads, some killed ones aside, keeps it going for ever. */
  lemma EndsExactly(q: seq<Tid>, threads: map<Tid, ThreadState>)
    requires Known(q, threads)
    ensures CanPick(q, threads) <==> LoopEnds(q, threads)
  {
    if CanPick(q, threads) {
      var k := Ends(q, threads);
    } else {
      var i :| 0 <= i < |q| && threads[q[i]] != Killed;
      forall k: nat ensures !Over(Rounds(Loop(None, q), threads, k)) {
        NeverEnds(q, threads, i, k);
      }
    }
  }

  // ----- queues without killed threads -----

  predicate NoneKilled(q: seq<Tid>, threads: map<Tid, ThreadState>) {
    Known(q, threads) && forall i :: 0 <= i < |q| ==> threads[q[i]] != Killed
  }

  /** The queue without its i-th thread, those before it moved to the back. */
  function Rotated(q: seq<Tid>, i: nat): seq<Tid>
    requires i < |q|
  {
    q[i + 1..] + q[..i]
  }

  /** The first stopped thread is found, after the running ones before it have gone to the back. */
  lemma {:induction false} PickedIs(q: seq<Tid>, threads: map<Tid, ThreadState>)
    requires NoneKilled(q, threads) && FirstStopped(q, threads) < |q|
    ensures CanPick(q, threads)
    ensures var i := FirstStopped(q, threads); Picked(q, threads) == Loop(Some(q[i]), Rotated(q, i))
    decreases FirstStopped(q, threads)
  {
    var i := FirstStopped(q, threads);
    if i == 0 {
      assert Rotated(q, 0) == q[1..];
    } else {
      var r := q[1..] + [q[0]];
      NextRound(q, threads);
      RotatedOnce(q, i);
      hide FirstStopped, NoneKilled, Rotated;
      PickedIs(r, threads);
    }
  }

  /** A running thread in front goes to the back, and the first stopped thread comes one nearer. */
  lemma NextRound(q: seq<Tid>, threads: map<Tid, ThreadState>)
    requires NoneKilled(q, threads) && 0 < FirstStopped(q, threads) < |q|
    ensures var r := q[1..] + [q[0]];
      && NoneKilled(r, threads) && FirstStopped(r, threads) == FirstStopped(q, threads) - 1
      && CanPick(q, threads) && CanPick(r, threads) && Picked(q, threads) == Picked(r, threads)
  {
    assert threads[q[0]] == Running;
    RestPickable(q, threads);
    assert FirstStopped(q, threads) == 1 + FirstStopped(q[1..], threads);
    AppendKeepsFirst(q[1..], q[0], threads);
  }

  lemma RotatedOnce(q: seq<Tid>, i: nat)
    requires 0 < i < |q|
    ensures var r := q[1..] + [q[0]]; r[i - 1] == q[i] && Rotated(r, i - 1) == Rotated(q, i)
  {
  }

  /** Without a stopped thread the loop on a queue that is not empty never ends. */
  lemma NothingToPick(q: seq<Tid>, threads: map<Tid, ThreadState>)
    requires NoneKilled(q, threads) && q != []
    ensures CanPick(q, threads) <==> FirstStopped(q, threads) < |q|
  {
    assert q[0] in threads && threads[q[0]] != Killed;
  }

  lemma RotatedKeeps(q: seq<Tid>, i: nat)
    requires i < |q|
    ensures multiset(q) == multiset(Rotated(q, i)) + multiset{q[i]}
    ensures forall t :: t in q <==> t in Rotated(q, i) || t == q[i]
  {
    assert q == q[..i] + [q[i]] + q[i + 1..];
  }
}

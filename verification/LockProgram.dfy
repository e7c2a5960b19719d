/** Which locks each handler takes and drops, in which order: the program behind the positions of a CPU. */
module LockProgram {
  import opened Common
  import opened Locks

  /** One CPU on its way from its thread through a handler and back, with interrupts off. */
  ghost predicate Visit(n: nat, c: nat, path: seq<Cpu>) {
    && |path| >= 2 && path[0].pc.InThread? && path[0].under.None? && path[|path| - 1].pc.InThread?
    && forall i :: 0 <= i < |path| - 1 ==> Moves(true, n, c, path[i], path[i + 1]) && (i > 0 ==> !path[i].pc.InThread?)
  }

  /** What the moves do to the locks. */
  function Acts(c: nat, path: seq<Cpu>): seq<Effect> {
    if |path| < 2 then []
    else
      var e := EffectOf(c, path[0], path[1]);
      (if e.Nothing? then [] else [e]) + Acts(c, path[1..])
  }

  /** switchNext: the own queue's lock, held while the locks of other queues are taken and dropped one at a time, in the
      order of the CPUs; then, the own lock dropped, perhaps balancing. */
  predicate SwitchActs(n: nat, c: nat, es: seq<Effect>) {
    |es| >= 1 && es[0] == Take(c) && ScanActs(n, c, 0, es[1..])
  }

  predicate ScanActs(n: nat, c: nat, i: nat, es: seq<Effect>)
    decreases |es|
  {
    || (|es| >= 1 && es[0] == Drop(c) && BalanceActs(n, es[1..]))
    || (|es| >= 2 && es[0].Take? && i <= es[0].l < n && es[0].l != c && es[1] == Drop(es[0].l) && ScanActs(n, c, es[0].l + 1, es[2..]))
  }

  /** balance: under the balance lock, once for each of the n / 2 pairs, both locks of the pair, dropped in the order
      they were taken. */
  predicate BalanceActs(n: nat, es: seq<Effect>) {
    es == [] || (es[0] == Enter && PairActs(n, n / 2, es[1..]))
  }

  predicate PairActs(n: nat, pairs: nat, es: seq<Effect>) {
    if pairs == 0 then es == [Leave]
    else
      && |es| >= 4 && es[0].Take? && es[1].Take? && es[0].l < n && es[1].l < n && es[0].l != es[1].l
      && es[2] == Drop(es[0].l) && es[3] == Drop(es[1].l) && PairActs(n, pairs - 1, es[4..])
  }

  /** What is left to do from a position. */
  ghost predicate Rest(n: nat, c: nat, pc: Pc, es: seq<Effect>) {
    match pc
    case InThread => es == []
    case WantAdd(q) => es == [Take(q), Drop(q)]
    case Adding(q) => es == [Drop(q)]
    case WantPush => |es| >= 2 && es[0] == Take(c) && es[1] == Drop(c) && SwitchActs(n, c, es[2..])
    case Pushing => |es| >= 1 && es[0] == Drop(c) && SwitchActs(n, c, es[1..])
    case WantPick => SwitchActs(n, c, es)
    case Scanning(i) => ScanActs(n, c, i, es)
    case Stealing(i) => |es| >= 1 && es[0] == Drop(i) && ScanActs(n, c, i + 1, es[1..])
    case Picked => |es| >= 1 && es[0] == Drop(c) && BalanceActs(n, es[1..])
    case Deciding => BalanceActs(n, es)
    case Balancing(k) => k <= n / 2 && PairActs(n, n / 2 - k, es)
    case WantFirst(k, a, b) =>
      && k < n / 2 && TwoOf(n, a, b)
      && |es| >= 4 && es[0] == Take(a) && es[1] == Take(b) && es[2] == Drop(a) && es[3] == Drop(b) && PairActs(n, n / 2 - k - 1, es[4..])
    case WantSecond(k, a, b) =>
      && k < n / 2 && |es| >= 3 && es[0] == Take(b) && es[1] == Drop(a) && es[2] == Drop(b) && PairActs(n, n / 2 - k - 1, es[3..])
    case Moving(k, a, b) =>
      && k < n / 2 && |es| >= 2 && es[0] == Drop(a) && es[1] == Drop(b) && PairActs(n, n / 2 - k - 1, es[2..])
    case HalfDone(k, b) => k < n / 2 && |es| >= 1 && es[0] == Drop(b) && PairActs(n, n / 2 - k - 1, es[1..])
  }

  /** One move earlier there is what the move does, and then the rest. */
  lemma RestBefore(n: nat, c: nat, was: Cpu, now: Cpu, es: seq<Effect>)
    requires was.under.None? && !was.pc.InThread? && PcOk(true, n, c, was) && Moves(true, n, c, was, now) && Rest(n, c, now.pc, es)
    ensures var e := EffectOf(c, was, now); Rest(n, c, was.pc, (if e.Nothing? then [] else [e]) + es)
  {
    hide PairActs;
    var e := EffectOf(c, was, now);
    if e.Nothing? {
      assert [] + es == es;
      if was.pc.Scanning? && now.pc.Scanning? { ScanLater(n, c, was.pc.next, es); }
      if was.pc.Balancing? && now.pc.WantFirst? { OnePair(n, was.pc.pair, now.pc.first, now.pc.second, es); }
    } else {
      var all := [e] + es;
      assert all[1..] == es;
      if |es| >= 1 { assert all[2..] == es[1..]; }
      if |es| >= 2 { assert all[3..] == es[2..]; }
      if |es| >= 3 { assert all[4..] == es[3..]; }
      if was.pc.Balancing? {
        LastPair(n);
        assert all == [Leave];
      }
    }
  }

  lemma ScanLater(n: nat, c: nat, i: nat, es: seq<Effect>)
    requires ScanActs(n, c, i + 1, es)
    ensures ScanActs(n, c, i, es)
  {
    hide BalanceActs;
  }

  lemma OnePair(n: nat, k: nat, a: nat, b: nat, es: seq<Effect>)
    requires k < n / 2 && TwoOf(n, a, b)
    requires |es| >= 4 && es[0] == Take(a) && es[1] == Take(b) && es[2] == Drop(a) && es[3] == Drop(b) && PairActs(n, n / 2 - k - 1, es[4..])
    ensures PairActs(n, n / 2 - k, es)
  {
  }

  lemma LastPair(n: nat)
    ensures PairActs(n, 0, [Leave])
  {
  }

  lemma MoveOk(n: nat, c: nat, was: Cpu, now: Cpu)
    requires c < n && was.under.None? && PcOk(true, n, c, was) && Moves(true, n, c, was, now)
    ensures now.under.None? && PcOk(true, n, c, now)
  {
  }

  lemma {:induction false} FromHere(n: nat, c: nat, path: seq<Cpu>)
    requires c < n && |path| >= 1 && path[0].under.None? && PcOk(true, n, c, path[0]) && path[|path| - 1].pc.InThread?
    requires forall i :: 0 <= i < |path| - 1 ==> Moves(true, n, c, path[i], path[i + 1]) && !path[i].pc.InThread?
    ensures Rest(n, c, path[0].pc, Acts(c, path))
  {
    hide Moves, PcOk, Rest, EffectOf;
    if |path| == 1 {
      NothingToDo(n, c, path[0].pc);
    } else {
      MoveOk(n, c, path[0], path[1]);
      FromHere(n, c, path[1..]);
      RestBefore(n, c, path[0], path[1], Acts(c, path[1..]));
    }
  }

  lemma NothingToDo(n: nat, c: nat, pc: Pc)
    requires pc.InThread?
    ensures Rest(n, c, pc, [])
  {
  }

  /** What a visit does: addThread takes and drops one queue's lock; a tick or yield takes and drops its own queue's for
      the push and then switches; an exit or a start only switches. */
  lemma VisitActs(n: nat, c: nat, path: seq<Cpu>)
    requires c < n && Visit(n, c, path)
    ensures var es, first := Acts(c, path), path[1].pc;
      || (first.WantAdd? && es == [Take(first.queue), Drop(first.queue)])
      || (first.WantPush? && |es| >= 2 && es[0] == Take(c) && es[1] == Drop(c) && SwitchActs(n, c, es[2..]))
      || (first.WantPick? && SwitchActs(n, c, es))
  {
    assert Moves(true, n, c, path[0], path[1]);
    MoveOk(n, c, path[0], path[1]);
    var rest := path[1..];
    forall i | 0 <= i < |rest| - 1 ensures Moves(true, n, c, rest[i], rest[i + 1]) && !rest[i].pc.InThread? {
      assert Moves(true, n, c, path[i + 1], path[i + 2]);
    }
    FromHere(n, c, rest);
    assert Acts(c, path) == Acts(c, rest);
  }
}

/**
 * Threads taking locks of one StripedMap: two at a time in address order, or all of them in index
 * order. Stripes are numbered by address.
 */
module LockOrder {
  import opened Options

  datatype Op = Two(a: nat, b: nat) | All

  /** lockTwo takes the lower address first, and a lock given twice once; lockAll goes up the array. */
  function TakeOrder(n: nat, op: Op): seq<nat> {
    match op
    case Two(a, b) =>
      if a < b then [a, b]
      else if b != a then [b, a] else [b]
    case All => seq(n, i => i)
  }

  /** unlockTwo gives back the first argument first; unlockAll goes up the array. */
  function GiveOrder(n: nat, op: Op): seq<nat> {
    match op
    case Two(a, b) => if b != a then [a, b] else [a]
    case All => seq(n, i => i)
  }

  /** Taking(i): i locks taken so far. Giving(j): j given back so far. */
  datatype Phase = Taking(i: nat) | Giving(j: nat)

  /** A thread still has prog to do; its phase is within prog[0]. */
  datatype Thread = Thread(prog: seq<Op>, phase: Phase)

  datatype Machine = Machine(owner: seq<Option<nat>>, threads: seq<Thread>)

  function Start(progs: seq<seq<Op>>, n: nat): Machine {
    Machine(seq(n, _ => None), seq(|progs|, i requires 0 <= i < |progs| => Thread(progs[i], Taking(0))))
  }

  /** One step of thread t: take a lock if it is free, give one back, or go on to the next call. */
  function Fire(s: Machine, t: nat): Machine {
    if t >= |s.threads| || s.threads[t].prog == [] then s
    else
      var n, th := |s.owner|, s.threads[t];
      match th.phase
      case Taking(i) =>
        var order := TakeOrder(n, th.prog[0]);
        if i >= |order| then s.(threads := s.threads[t := th.(phase := Giving(0))])
        else if order[i] < n && s.owner[order[i]].None? then
          Machine(s.owner[order[i] := Some(t)], s.threads[t := th.(phase := Taking(i + 1))])
        else s
      case Giving(j) =>
        var order := GiveOrder(n, th.prog[0]);
        if j >= |order| then s.(threads := s.threads[t := Thread(th.prog[1..], Taking(0))])
        else if order[j] < n then
          Machine(s.owner[order[j] := None], s.threads[t := th.(phase := Giving(j + 1))])
        else s
  }

  function Run(s: Machine, sched: seq<nat>): Machine
    decreases |sched|
  {
    if sched == [] then s else Run(Fire(s, sched[0]), sched[1..])
  }

  predicate OpOk(n: nat, op: Op) { op.Two? ==> op.a < n && op.b < n }

  /** The locks a thread holds where it is. */
  predicate HoldsLock(n: nat, th: Thread, l: nat) {
    th.prog != [] &&
    match th.phase
    case Taking(i) => i <= |TakeOrder(n, th.prog[0])| && l in TakeOrder(n, th.prog[0])[..i]
    case Giving(j) => j <= |GiveOrder(n, th.prog[0])| && l in GiveOrder(n, th.prog[0])[j..]
  }

  ghost predicate ThreadOk(n: nat, th: Thread) {
    && (forall i :: 0 <= i < |th.prog| ==> OpOk(n, th.prog[i]))
    && (th.prog != [] ==>
          match th.phase
          case Taking(i) => i <= |TakeOrder(n, th.prog[0])|
          case Giving(j) => j <= |GiveOrder(n, th.prog[0])|)
  }

  /** The lock words say exactly who holds what. */
  ghost predicate Inv(s: Machine) {
    && (forall t :: 0 <= t < |s.threads| ==> ThreadOk(|s.owner|, s.threads[t]))
    && (forall l, t :: 0 <= l < |s.owner| && 0 <= t < |s.threads| ==>
          (s.owner[l] == Some(t) <==> HoldsLock(|s.owner|, s.threads[t], l)))
    && (forall l :: 0 <= l < |s.owner| && s.owner[l].Some? ==> s.owner[l].value < |s.threads|)
  }

  lemma OrdersOk(n: nat, op: Op)
    requires OpOk(n, op)
    ensures var take, give := TakeOrder(n, op), GiveOrder(n, op);
      && (forall i :: 0 <= i < |take| ==> take[i] < n)
      && (forall i, j :: 0 <= i < j < |take| ==> take[i] < take[j])
      && (forall l :: l in give <==> l in take)
      && (forall i, j :: 0 <= i < j < |give| ==> give[i] != give[j])
      && (forall i :: 0 <= i < |give| ==> give[i] < n)
  {}

  /** A step to take a lock gets one the thread does not hold; a step to give one back gives one it does. */
  lemma StepIsProper(s: Machine, t: nat)
    requires Inv(s) && t < |s.threads| && s.threads[t].prog != []
    ensures var n, th := |s.owner|, s.threads[t];
      match th.phase
      case Taking(i) => i < |TakeOrder(n, th.prog[0])| ==>
        TakeOrder(n, th.prog[0])[i] < n && s.owner[TakeOrder(n, th.prog[0])[i]] != Some(t)
      case Giving(j) => j < |GiveOrder(n, th.prog[0])| ==>
        GiveOrder(n, th.prog[0])[j] < n && s.owner[GiveOrder(n, th.prog[0])[j]] == Some(t)
  {}

  /** Thread t's step takes s to s' and touches no other thread; t holds exactly the locks marked as its own. */
  ghost predicate Moved(s: Machine, s': Machine, t: nat)
    requires t < |s.threads|
  {
    && |s'.owner| == |s.owner| && |s'.threads| == |s.threads| && ThreadOk(|s.owner|, s'.threads[t])
    && (forall u :: 0 <= u < |s.threads| && u != t ==> s'.threads[u] == s.threads[u])
    && (forall l :: 0 <= l < |s.owner| ==> (s'.owner[l] == Some(t) <==> HoldsLock(|s.owner|, s'.threads[t], l)))
    && (forall l :: 0 <= l < |s.owner| ==>
          s'.owner[l] == s.owner[l] || (s.owner[l].None? && s'.owner[l] == Some(t))
          || (s.owner[l] == Some(t) && s'.owner[l].None?))
  }

  lemma TakeMoves(s: Machine, t: nat)
    requires Inv(s) && t < |s.threads| && s.threads[t].prog != [] && s.threads[t].phase.Taking?
    requires s.threads[t].phase.i < |TakeOrder(|s.owner|, s.threads[t].prog[0])|
    ensures Moved(s, Fire(s, t), t)
  {}

  lemma TurnMoves(s: Machine, t: nat)
    requires Inv(s) && t < |s.threads| && s.threads[t].prog != [] && s.threads[t].phase.Taking?
    requires s.threads[t].phase.i >= |TakeOrder(|s.owner|, s.threads[t].prog[0])|
    ensures Moved(s, Fire(s, t), t)
  {
    var n, th := |s.owner|, s.threads[t];
    assert ThreadOk(n, th);
    assert OpOk(n, th.prog[0]);
    OrdersOk(n, th.prog[0]);
    var take, give := TakeOrder(n, th.prog[0]), GiveOrder(n, th.prog[0]);
    assert take[..th.phase.i] == take && give[0..] == give;
    forall l | 0 <= l < n ensures s.owner[l] == Some(t) <==> HoldsLock(n, th, l) {}
  }

  lemma GiveMoves(s: Machine, t: nat)
    requires Inv(s) && t < |s.threads| && s.threads[t].prog != [] && s.threads[t].phase.Giving?
    requires s.threads[t].phase.j < |GiveOrder(|s.owner|, s.threads[t].prog[0])|
    ensures Moved(s, Fire(s, t), t)
  {}

  lemma NextMoves(s: Machine, t: nat)
    requires Inv(s) && t < |s.threads| && s.threads[t].prog != [] && s.threads[t].phase.Giving?
    requires s.threads[t].phase.j >= |GiveOrder(|s.owner|, s.threads[t].prog[0])|
    ensures Moved(s, Fire(s, t), t)
  {}

  lemma StepKeepsInv(s: Machine, t: nat)
    requires Inv(s)
    ensures Inv(Fire(s, t)) && |Fire(s, t).owner| == |s.owner|
  {
    if t < |s.threads| && s.threads[t].prog != [] {
      var s' := Fire(s, t);
      var th := s.threads[t];
      if th.phase.Taking? {
        if th.phase.i < |TakeOrder(|s.owner|, th.prog[0])| { TakeMoves(s, t); } else { TurnMoves(s, t); }
      } else {
        if th.phase.j < |GiveOrder(|s.owner|, th.prog[0])| { GiveMoves(s, t); } else { NextMoves(s, t); }
      }
      forall l, u | 0 <= l < |s'.owner| && 0 <= u < |s'.threads|
        ensures s'.owner[l] == Some(u) <==> HoldsLock(|s'.owner|, s'.threads[u], l)
      {
        assert s.owner[l] == Some(u) <==> HoldsLock(|s.owner|, s.threads[u], l);
      }
    }
  }

  lemma {:induction false} RunKeepsInv(s: Machine, sched: seq<nat>)
    requires Inv(s)
    ensures Inv(Run(s, sched))
    decreases |sched|
  {
    if sched != [] {
      StepKeepsInv(s, sched[0]);
      RunKeepsInv(Fire(s, sched[0]), sched[1..]);
    }
  }

  /** A thread that cannot step waits for a lock someone holds. */
  lemma StuckWaits(s: Machine, t: nat)
    requires Inv(s) && t < |s.threads| && s.threads[t].prog != [] && Fire(s, t) == s
    ensures var n, th := |s.owner|, s.threads[t];
      && th.phase.Taking? && th.phase.i < |TakeOrder(n, th.prog[0])|
      && TakeOrder(n, th.prog[0])[th.phase.i] < n && s.owner[TakeOrder(n, th.prog[0])[th.phase.i]].Some?
  {}

  /** Follow a blocked thread to whoever has its lock: the locks waited for only go up, so someone can move. */
  lemma Mover(s: Machine, t: nat, from: nat) returns (u: nat)
    requires Inv(s) && t < |s.threads| && s.threads[t].prog != []
    requires from <= |s.owner| && WaitsAbove(s, t, from)
    ensures u < |s.threads| && Fire(s, u) != s
    decreases |s.owner| - from
  {
    u := t;
    if Fire(s, t) == s {
      StuckWaits(s, t);
      var l := TakeOrder(|s.owner|, s.threads[t].prog[0])[s.threads[t].phase.i];
      HolderWaitsAbove(s, s.owner[l].value, l);
      u := Mover(s, s.owner[l].value, l + 1);
    }
  }

  /** If t is about to take a lock, it is at or above from. */
  ghost predicate WaitsAbove(s: Machine, t: nat, from: nat)
    requires t < |s.threads|
  {
    var th := s.threads[t];
    th.prog != [] && th.phase.Taking? && th.phase.i < |TakeOrder(|s.owner|, th.prog[0])| ==>
      TakeOrder(|s.owner|, th.prog[0])[th.phase.i] >= from
  }

  lemma HolderWaitsAbove(s: Machine, h: nat, l: nat)
    requires Inv(s) && l < |s.owner| && h < |s.threads| && s.owner[l] == Some(h)
    ensures s.threads[h].prog != [] && WaitsAbove(s, h, l + 1)
  {}

  /** In every reachable state, if some thread has not finished, some thread can step. */
  lemma NeverStuck(progs: seq<seq<Op>>, n: nat, sched: seq<nat>, t: nat)
    requires forall i, j :: 0 <= i < |progs| && 0 <= j < |progs[i]| ==> OpOk(n, progs[i][j])
    requires var s := Run(Start(progs, n), sched); t < |s.threads| && s.threads[t].prog != []
    ensures var s := Run(Start(progs, n), sched); exists u :: 0 <= u < |s.threads| && Fire(s, u) != s
  {
    var s := Run(Start(progs, n), sched);
    StartOk(progs, n);
    RunKeepsInv(Start(progs, n), sched);
    var u := Mover(s, t, 0);
  }

  lemma StartOk(progs: seq<seq<Op>>, n: nat)
    requires forall i, j :: 0 <= i < |progs| && 0 <= j < |progs[i]| ==> OpOk(n, progs[i][j])
    ensures Inv(Start(progs, n))
  {}

  /** When every thread is done, every lock is free again. */
  lemma AllFreeAtTheEnd(progs: seq<seq<Op>>, n: nat, sched: seq<nat>)
    requires forall i, j :: 0 <= i < |progs| && 0 <= j < |progs[i]| ==> OpOk(n, progs[i][j])
    requires forall t :: 0 <= t < |Run(Start(progs, n), sched).threads| ==>
      Run(Start(progs, n), sched).threads[t].prog == []
    ensures forall l :: 0 <= l < |Run(Start(progs, n), sched).owner| ==> Run(Start(progs, n), sched).owner[l].None?
  {
    var s := Run(Start(progs, n), sched);
    StartOk(progs, n);
    RunKeepsInv(Start(progs, n), sched);
    forall l | 0 <= l < |s.owner| ensures s.owner[l].None? {
      if s.owner[l].Some? { HolderWaitsAbove(s, s.owner[l].value, l); }
    }
  }

  function Lower(a: nat, b: nat): nat { if a < b then a else b }

  /** Whether lock l is held at that point of the call: lower address first, and given back as the arguments come. */
  predicate HeldAt(op: Op, phase: Phase, l: nat) {
    match op
    case Two(a, b) =>
      (match phase
       case Taking(i) => i > 0 && (l == Lower(a, b) || (i > 1 && (l == a || l == b)))
       case Giving(j) => (j == 0 && (l == a || l == b)) || (j == 1 && a != b && l == b))
    case All =>
      (match phase
       case Taking(i) => l < i
       case Giving(j) => l >= j)
  }

  /**
   * What a call holds, in every reachable state: nothing at first; once it has its locks, lockTwo both of
   * them and no other, and lockAll every one; on the way, those it has got to.
   */
  lemma HoldsItsLocks(progs: seq<seq<Op>>, n: nat, sched: seq<nat>, t: nat, l: nat)
    requires forall i, j :: 0 <= i < |progs| && 0 <= j < |progs[i]| ==> OpOk(n, progs[i][j])
    requires var s := Run(Start(progs, n), sched); t < |s.threads| && l < |s.owner|
    ensures var s := Run(Start(progs, n), sched);
      s.owner[l] == Some(t) <==> s.threads[t].prog != [] && HeldAt(s.threads[t].prog[0], s.threads[t].phase, l)
  {
    var s := Run(Start(progs, n), sched);
    StartOk(progs, n);
    RunKeepsInv(Start(progs, n), sched);
    var th := s.threads[t];
    if th.prog != [] {
      assert ThreadOk(|s.owner|, th);
      HeldIsHolds(|s.owner|, th, l);
    }
  }

  lemma HeldIsHolds(n: nat, th: Thread, l: nat)
    requires th.prog != [] && OpOk(n, th.prog[0]) && ThreadOk(n, th) && l < n
    ensures HoldsLock(n, th, l) <==> HeldAt(th.prog[0], th.phase, l)
  {
    var take, give := TakeOrder(n, th.prog[0]), GiveOrder(n, th.prog[0]);
    match th.phase {
      case Taking(i) =>
        if th.prog[0].All? {
          if l < i { assert take[..i][l] == l; }
        } else if i == 1 {
          assert take[..1] == [take[0]];
        } else if i == 2 {
          assert take[..2] == take;
        }
      case Giving(j) =>
        if th.prog[0].All? {
          if l >= j { assert give[j..][l - j] == l; }
        } else if j == 0 {
          assert give[0..] == give;
        } else if j == 1 && |give| == 2 {
          assert give[1..] == [give[1]];
        }
    }
  }

  /** So two threads past their taking share no lock. */
  lemma NoSharing(progs: seq<seq<Op>>, n: nat, sched: seq<nat>, t: nat, u: nat, l: nat)
    requires forall i, j :: 0 <= i < |progs| && 0 <= j < |progs[i]| ==> OpOk(n, progs[i][j])
    requires var s := Run(Start(progs, n), sched);
      && t < |s.threads| && u < |s.threads| && t != u && l < |s.owner|
      && s.threads[t].prog != [] && s.threads[t].phase == Giving(0)
      && s.threads[u].prog != [] && s.threads[u].phase == Giving(0)
    ensures var s := Run(Start(progs, n), sched);
      !(HeldAt(s.threads[t].prog[0], Giving(0), l) && HeldAt(s.threads[u].prog[0], Giving(0), l))
  {
    HoldsItsLocks(progs, n, sched, t, l);
    HoldsItsLocks(progs, n, sched, u, l);
  }

  // How long it takes

  function OpWork(n: nat, op: Op): nat { |TakeOrder(n, op)| + |GiveOrder(n, op)| + 2 }

  function ProgWork(n: nat, prog: seq<Op>): nat {
    if prog == [] then 0 else OpWork(n, prog[0]) + ProgWork(n, prog[1..])
  }

  /** The steps a thread has still to take. */
  function WorkLeft(n: nat, th: Thread): int {
    if th.prog == [] then 0
    else ProgWork(n, th.prog) - match th.phase case Taking(i) => i case Giving(j) => |TakeOrder(n, th.prog[0])| + 1 + j
  }

  function TotalWork(n: nat, threads: seq<Thread>): int {
    if threads == [] then 0 else TotalWork(n, threads[..|threads| - 1]) + WorkLeft(n, threads[|threads| - 1])
  }

  lemma {:induction false} TotalAfter(n: nat, threads: seq<Thread>, t: nat, th: Thread)
    requires t < |threads|
    ensures TotalWork(n, threads[t := th]) == TotalWork(n, threads) - WorkLeft(n, threads[t]) + WorkLeft(n, th)
    decreases |threads|
  {
    var k := |threads| - 1;
    if t == k {
      assert threads[t := th][..k] == threads[..k];
    } else {
      assert threads[t := th][..k] == threads[..k][t := th];
      TotalAfter(n, threads[..k], t, th);
    }
  }

  lemma {:induction false} NoWorkMeansDone(n: nat, threads: seq<Thread>)
    requires forall t :: 0 <= t < |threads| ==> ThreadOk(n, threads[t])
    ensures TotalWork(n, threads) >= 0
    ensures TotalWork(n, threads) == 0 <==> forall t :: 0 <= t < |threads| ==> threads[t].prog == []
    decreases |threads|
  {
    if threads != [] {
      var k := |threads| - 1;
      NoWorkMeansDone(n, threads[..k]);
      assert ThreadOk(n, threads[k]);
      assert WorkLeft(n, threads[k]) >= 0 && (WorkLeft(n, threads[k]) == 0 <==> threads[k].prog == []);
      assert forall t :: 0 <= t < k ==> threads[..k][t] == threads[t];
    }
  }

  /** A step that does anything is one step less to take. */
  lemma StepIsWork(s: Machine, t: nat)
    requires Inv(s) && Fire(s, t) != s
    ensures TotalWork(|s.owner|, Fire(s, t).threads) == TotalWork(|s.owner|, s.threads) - 1
  {
    var n, th := |s.owner|, s.threads[t];
    StepIsProper(s, t);
    assert ThreadOk(n, th);
    assert Fire(s, t).threads == s.threads[t := Fire(s, t).threads[t]];
    TotalAfter(n, s.threads, t, Fire(s, t).threads[t]);
  }

  /** How many steps of a schedule do anything. */
  function Moves(s: Machine, sched: seq<nat>): nat
    decreases |sched|
  {
    if sched == [] then 0
    else (if Fire(s, sched[0]) != s then 1 else 0) + Moves(Fire(s, sched[0]), sched[1..])
  }

  lemma {:induction false} RunIsWork(s: Machine, sched: seq<nat>)
    requires Inv(s)
    ensures |Run(s, sched).owner| == |s.owner|
    ensures TotalWork(|s.owner|, Run(s, sched).threads) + Moves(s, sched) == TotalWork(|s.owner|, s.threads)
    decreases |sched|
  {
    if sched != [] {
      StepKeepsInv(s, sched[0]);
      if Fire(s, sched[0]) != s { StepIsWork(s, sched[0]); }
      RunIsWork(Fire(s, sched[0]), sched[1..]);
    }
  }

  /**
   * No schedule gets stuck or goes on for ever: the steps that do anything are never more than the
   * programs ask for, and when they are as many, and only then, every thread is done.
   */
  lemma FinishesInFixedTime(progs: seq<seq<Op>>, n: nat, sched: seq<nat>)
    requires forall i, j :: 0 <= i < |progs| && 0 <= j < |progs[i]| ==> OpOk(n, progs[i][j])
    ensures var s, work := Run(Start(progs, n), sched), TotalWork(n, Start(progs, n).threads);
      && Moves(Start(progs, n), sched) <= work
      && (Moves(Start(progs, n), sched) == work <==> forall t :: 0 <= t < |s.threads| ==> s.threads[t].prog == [])
      && (Moves(Start(progs, n), sched) < work ==> exists u :: 0 <= u < |s.threads| && Fire(s, u) != s)
  {
    var s := Run(Start(progs, n), sched);
    StartOk(progs, n);
    RunKeepsInv(Start(progs, n), sched);
    RunIsWork(Start(progs, n), sched);
    NoWorkMeansDone(n, s.threads);
    if Moves(Start(progs, n), sched) < TotalWork(n, Start(progs, n).threads) {
      var t :| 0 <= t < |s.threads| && s.threads[t].prog != [];
      NeverStuck(progs, n, sched, t);
    }
  }
}

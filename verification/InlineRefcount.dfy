/**
 * The inline reference count macro: a signed counter kept at twice the owners less two, so that 0 is
 * one owner, -2 is none, and an odd value means deallocating. half is half the range of the counter's
 * type: fetch-and-add wraps at it.
 */
module InlineRefcount {
  import opened Options

  /** What the logic block decides about an object with no owners. */
  datatype Fate = Resurrect | Now | Later | Bogus

  /** A thread's calls, innermost first: user code runs at Idle, in the logic block and in dealloc. */
  datatype Pc =
    | Idle
    | InBlock(under: Pc)               // released the last reference; the logic block is running
    | AtSwap(fate: Fate, under: Pc)    // about to swap -2 for 1
    | InDealloc(fate: Fate, under: Pc) // past the swap; dealloc is running
    | TryRead(under: Pc)
    | TryCas(prev: int, under: Pc)
    | TryDone(ok: bool, under: Pc)

  /** owned, winner, last, tried and swaps are history. */
  datatype Machine = Machine(
    rc: int, pcs: seq<Pc>, trapped: bool,
    owned: seq<int>, winner: Option<nat>, last: Option<nat>, tried: nat, swaps: nat)

  datatype Choice = Retain | Release | TryRetain | Give(to: nat) | Decide(fate: Fate) | Go

  function Wrap(half: nat, x: int): int {
    if x >= half then x - 2 * half else if x + half < 0 then x + 2 * half else x
  }

  predicate Odd(rc: int) { rc % 2 == 1 }

  /** A new object, owned once by thread 0. */
  function Init(n: nat): Machine
    requires n > 0
  {
    Machine(0, seq(n, _ => Idle), false, seq(n, i => if i == 0 then 1 else 0), None, None, 0, 0)
  }

  function Goto(s: Machine, t: nat, pc: Pc): Machine
    requires t < |s.pcs|
  {
    s.(pcs := s.pcs[t := pc])
  }

  function Own(s: Machine, t: nat, d: int): Machine {
    if t < |s.owned| then s.(owned := s.owned[t := s.owned[t] + d]) else s
  }

  /** fetch-and-add 2, trapping on an over-released reference. */
  function DoRetain(half: nat, s: Machine, t: nat): Machine {
    if s.rc < -2 then s.(trapped := true)
    else Own(s.(rc := Wrap(half, s.rc + 2)), t, 1)
  }

  /** fetch-and-subtract 2; the release that sees zero runs the logic block. */
  function DoRelease(half: nat, s: Machine, t: nat): Machine
    requires t < |s.pcs|
  {
    var s' := Own(s.(rc := Wrap(half, s.rc - 2)), t, -1);
    if s.rc > 0 then s'
    else if s.rc < 0 then s'.(trapped := true)
    else Goto(s'.(last := Some(t)), t, InBlock(s.pcs[t]))
  }

  /** A call, or the passing on of a reference, from user code. */
  function FireCall(half: nat, s: Machine, t: nat, c: Choice): Machine
    requires t < |s.pcs|
  {
    match c
    case Retain => DoRetain(half, s, t)
    case Release => DoRelease(half, s, t)
    case TryRetain => Goto(s, t, TryRead(s.pcs[t]))
    case Give(u) => if t < |s.owned| && u < |s.owned| && u != t then Own(Own(s, t, -1), u, 1) else s
    case _ => s
  }

  function Fire(half: nat, s: Machine, t: nat, c: Choice): Machine {
    if t >= |s.pcs| || s.trapped then s
    else match s.pcs[t]
      case Idle => FireCall(half, s, t, c)
      case InBlock(u) =>
        if c.Decide? then Goto(s, t, if c.fate.Resurrect? then u else AtSwap(c.fate, u)) else FireCall(half, s, t, c)
      case AtSwap(f, u) =>
        if s.rc != -2 then s.(trapped := true)                       // a dangling reference did a retain
        else Goto(s.(rc := 1, winner := Some(t), swaps := s.swaps + 1), t, InDealloc(f, u))
      case InDealloc(f, u) =>
        if f.Bogus? then s.(trapped := true)
        else if c.Go? then Goto(s, t, u)                             // dealloc returns, or runs elsewhere
        else FireCall(half, s, t, c)
      case TryRead(u) =>
        if Odd(s.rc) || s.rc == -2 then Goto(s, t, TryDone(false, u))
        else if s.rc < -2 then s.(trapped := true)
        else Goto(s, t, TryCas(s.rc, u))
      case TryCas(prev, u) =>
        if s.rc != prev then Goto(s, t, TryRead(u))
        else Own(Goto(s.(rc := Wrap(half, prev + 2), tried := s.tried + 1), t, TryDone(true, u)), t, 1)
      case TryDone(_, u) => Goto(s, t, u)
  }

  datatype Move = Move(thread: nat, choice: Choice)

  function Run(half: nat, s: Machine, sched: seq<Move>): Machine
    decreases |sched|
  {
    if sched == [] then s else Run(half, Fire(half, s, sched[0].thread, sched[0].choice), sched[1..])
  }

  // ------------------------------------------------------------------ whatever callers do

  /** The counter is odd exactly when somebody has passed the swap; compare-and-swaps expect even values. */
  ghost predicate Inv(s: Machine) {
    && (s.winner.Some? <==> Odd(s.rc))
    && s.swaps == (if s.winner.Some? then 1 else 0)
    && (forall t :: 0 <= t < |s.pcs| ==> PcOk(s.winner, t, s.pcs[t]))
  }

  ghost predicate PcOk(winner: Option<nat>, t: nat, pc: Pc) {
    match pc
    case Idle => true
    case InDealloc(_, u) => winner == Some(t) && PcOk(winner, t, u)
    case TryCas(prev, u) => !Odd(prev) && prev >= 0 && PcOk(winner, t, u)
    case InBlock(u) => PcOk(winner, t, u)
    case AtSwap(_, u) => PcOk(winner, t, u)
    case TryRead(u) => PcOk(winner, t, u)
    case TryDone(_, u) => PcOk(winner, t, u)
  }

  /** One step never takes back the swap, and after it no _tryRetain takes effect. */
  ghost predicate Settled(s: Machine, s': Machine) {
    s.winner.Some? ==> s'.winner == s.winner && s'.tried == s.tried && Odd(s'.rc)
  }

  lemma {:induction false} WinnerComes(t: nat, pc: Pc, winner: Option<nat>)
    requires PcOk(None, t, pc)
    ensures PcOk(winner, t, pc)
  {
    if !pc.Idle? { WinnerComes(t, pc.under, winner); }
  }

  /** What a step by t must do for Inv to be kept. */
  ghost predicate Moved(s: Machine, s': Machine, t: nat)
    requires t < |s.pcs|
  {
    && |s'.pcs| == |s.pcs| && (forall u :: 0 <= u < |s.pcs| && u != t ==> s'.pcs[u] == s.pcs[u])
    && (s'.winner.Some? <==> Odd(s'.rc)) && s'.swaps == (if s'.winner.Some? then 1 else 0)
    && PcOk(s'.winner, t, s'.pcs[t]) && Settled(s, s')
  }

  lemma WrapKeepsParity(half: nat, rc: int)
    requires half % 2 == 0
    ensures Odd(Wrap(half, rc + 2)) == Odd(rc) == Odd(Wrap(half, rc - 2))
  {}

  lemma RetainStep(half: nat, s: Machine, t: nat)
    requires Inv(s) && half % 2 == 0 && t < |s.pcs|
    ensures Moved(s, DoRetain(half, s, t), t)
  {
    WrapKeepsParity(half, s.rc);
    assert PcOk(s.winner, t, s.pcs[t]);
  }

  lemma ReleaseStep(half: nat, s: Machine, t: nat)
    requires Inv(s) && half % 2 == 0 && t < |s.pcs|
    ensures Moved(s, DoRelease(half, s, t), t)
  {
    WrapKeepsParity(half, s.rc);
    assert PcOk(s.winner, t, s.pcs[t]);
  }

  lemma CallStep(half: nat, s: Machine, t: nat, c: Choice)
    requires Inv(s) && half % 2 == 0 && t < |s.pcs|
    ensures Moved(s, FireCall(half, s, t, c), t)
  {
    assert PcOk(s.winner, t, s.pcs[t]);
    if c.Retain? { RetainStep(half, s, t); } else if c.Release? { ReleaseStep(half, s, t); }
  }

  lemma OwnStep(half: nat, s: Machine, t: nat, c: Choice)
    requires Inv(s) && half % 2 == 0 && t < |s.pcs|
    ensures Moved(s, Fire(half, s, t, c), t)
  {
    assert PcOk(s.winner, t, s.pcs[t]);
    WrapKeepsParity(half, s.rc);
    CallStep(half, s, t, c);
    if s.pcs[t].AtSwap? && s.winner.None? { WinnerComes(t, s.pcs[t].under, Some(t)); }
  }

  lemma StepKeepsInv(half: nat, s: Machine, t: nat, c: Choice)
    requires Inv(s) && half % 2 == 0
    ensures Inv(Fire(half, s, t, c)) && Settled(s, Fire(half, s, t, c))
  {
    var s' := Fire(half, s, t, c);
    if t < |s.pcs| {
      OwnStep(half, s, t, c);
      forall u | 0 <= u < |s'.pcs| ensures PcOk(s'.winner, u, s'.pcs[u]) {
        if u != t && s.winner.None? { WinnerComes(u, s.pcs[u], s'.winner); }
      }
    }
  }

  lemma {:induction false} RunKeepsInv(half: nat, s: Machine, sched: seq<Move>)
    requires Inv(s) && half % 2 == 0
    ensures Inv(Run(half, s, sched)) && Settled(s, Run(half, s, sched))
    decreases |sched|
  {
    if sched != [] {
      StepKeepsInv(half, s, sched[0].thread, sched[0].choice);
      RunKeepsInv(half, Fire(half, s, sched[0].thread, sched[0].choice), sched[1..]);
    }
  }

  /** One of the calls is a release past its swap. */
  predicate Deallocating(pc: Pc) { pc.InDealloc? || (!pc.Idle? && Deallocating(pc.under)) }

  lemma {:induction false} DeallocatingWon(winner: Option<nat>, t: nat, pc: Pc)
    requires PcOk(winner, t, pc) && Deallocating(pc)
    ensures winner == Some(t)
  {
    if !pc.InDealloc? { DeallocatingWon(winner, t, pc.under); }
  }

  /**
   * However callers, logic blocks and dealloc itself misbehave, the swap into dealloc happens at most
   * once, so at most one thread is ever past it.
   */
  lemma OneDealloc(half: nat, n: nat, sched: seq<Move>, t: nat, u: nat)
    requires n > 0 && half % 2 == 0
    ensures var s := Run(half, Init(n), sched);
      && s.swaps <= 1
      && (t < |s.pcs| && u < |s.pcs| && Deallocating(s.pcs[t]) && Deallocating(s.pcs[u]) ==> t == u)
      && (t < |s.pcs| && Deallocating(s.pcs[t]) ==> s.swaps == 1)
  {
    var s := Run(half, Init(n), sched);
    RunKeepsInv(half, Init(n), sched);
    if t < |s.pcs| && Deallocating(s.pcs[t]) {
      DeallocatingWon(s.winner, t, s.pcs[t]);
      if u < |s.pcs| && Deallocating(s.pcs[u]) { DeallocatingWon(s.winner, u, s.pcs[u]); }
    }
  }

  /** From then on the same thread has it, and no _tryRetain succeeds, its own included, whatever comes after. */
  lemma NoTryAfterDealloc(half: nat, n: nat, sched: seq<Move>, more: seq<Move>)
    requires n > 0 && half % 2 == 0 && Run(half, Init(n), sched).winner.Some?
    ensures var s, s' := Run(half, Init(n), sched), Run(half, Run(half, Init(n), sched), more);
      s'.winner == s.winner && s'.tried == s.tried && Odd(s'.rc)
  {
    RunKeepsInv(half, Init(n), sched);
    RunKeepsInv(half, Run(half, Init(n), sched), more);
  }

  // ------------------------------------------------------------------ when only owners retain and release

  function Owners(owned: seq<int>): int {
    if owned == [] then 0 else Owners(owned[..|owned| - 1]) + owned[|owned| - 1]
  }

  lemma {:induction false} OwnersAfter(owned: seq<int>, t: nat, x: int)
    requires t < |owned|
    ensures Owners(owned[t := x]) == Owners(owned) - owned[t] + x
    decreases |owned|
  {
    var n := |owned| - 1;
    if t == n {
      assert owned[t := x][..n] == owned[..n];
    } else {
      assert owned[t := x][..n] == owned[..n][t := x];
      OwnersAfter(owned[..n], t, x);
    }
  }

  lemma {:induction false} OwnerIsCounted(owned: seq<int>, t: nat)
    requires t < |owned| && forall i :: 0 <= i < |owned| ==> owned[i] >= 0
    ensures Owners(owned) >= owned[t]
    decreases |owned|
  {
    var n := |owned| - 1;
    if t < n {
      OwnerIsCounted(owned[..n], t);
    } else if n > 0 {
      OwnerIsCounted(owned[..n], 0);
    }
  }

  lemma {:induction false} OnlyFirstOwns(owned: seq<int>)
    requires |owned| > 0 && owned[0] == 1 && forall i :: 1 <= i < |owned| ==> owned[i] == 0
    ensures Owners(owned) == 1
    decreases |owned|
  {
    if |owned| == 1 {
      assert owned[..0] == [];
      assert Owners(owned[..0]) == 0;
    } else {
      OnlyFirstOwns(owned[..|owned| - 1]);
    }
  }

  /**
   * What disciplined callers do: retain, release and pass on only references they have, resurrect
   * nothing, and never hold so many that the counter would wrap.
   */
  predicate Allowed(half: nat, s: Machine, m: Move) {
    m.thread < |s.pcs| && |s.owned| == |s.pcs| ==>
      match s.pcs[m.thread]
      case TryCas(_, _) => s.rc + 2 < half
      case TryRead(_) => true
      case TryDone(_, _) => true
      case AtSwap(_, _) => true
      case _ =>
        && (m.choice.Retain? ==> s.owned[m.thread] > 0 && s.rc + 2 < half)
        && (m.choice.Release? || m.choice.Give? ==> s.owned[m.thread] > 0)
        && (m.choice.Decide? ==> m.choice.fate.Now? || m.choice.fate.Later?)
  }

  predicate Disciplined(half: nat, s: Machine, sched: seq<Move>)
    decreases |sched|
  {
    sched == [] ||
    (Allowed(half, s, sched[0])
     && Disciplined(half, Fire(half, s, sched[0].thread, sched[0].choice), sched[1..]))
  }

  /** t is between its release of the last reference and the swap. */
  predicate LettingGo(pc: Pc) {
    match pc
    case InBlock(_) => true
    case AtSwap(f, _) => f.Now? || f.Later?
    case TryRead(u) => LettingGo(u)
    case TryCas(_, u) => LettingGo(u)
    case TryDone(_, u) => LettingGo(u)
    case _ => false
  }

  ghost predicate Fair(half: nat, s: Machine) {
    && Inv(s) && half >= 4 && half % 2 == 0
    && CountOk(half, s)
    && forall t :: 0 <= t < |s.pcs| ==> GoingOk(Ending(s, t), s.winner.Some?, s.pcs[t])
  }

  ghost predicate CountOk(half: nat, s: Machine) {
    && !s.trapped
    && |s.owned| == |s.pcs| && (forall t :: 0 <= t < |s.owned| ==> s.owned[t] >= 0)
    && (if Owners(s.owned) > 0 then s.rc == 2 * (Owners(s.owned) - 1) && s.rc < half && s.winner.None? && s.last.None?
        else s.last.Some? && s.last.value < |s.pcs|
             && (if s.winner.None? then s.rc == -2 && LettingGo(s.pcs[s.last.value])
                 else s.rc == 1 && s.winner == s.last))
  }

  /** t released the last reference. */
  ghost predicate Ending(s: Machine, t: nat) { s.last == Some(t) && Owners(s.owned) == 0 }

  /**
   * Only the thread that released the last reference is on its way into dealloc, with nothing else
   * under it, and it has not swapped yet or it is the one that has.
   */
  ghost predicate GoingOk(ending: bool, swapped: bool, pc: Pc) {
    match pc
    case AtSwap(f, u) => ending && !swapped && u.Idle? && (f.Now? || f.Later?)
    case TryRead(u) => CodeOk(ending, swapped, u)
    case TryCas(_, u) => CodeOk(ending, swapped, u)
    case TryDone(_, u) => CodeOk(ending, swapped, u)
    case _ => CodeOk(ending, swapped, pc)
  }

  ghost predicate CodeOk(ending: bool, swapped: bool, pc: Pc) {
    match pc
    case Idle => true
    case InBlock(u) => ending && !swapped && u.Idle?
    case InDealloc(f, u) => ending && u.Idle? && (f.Now? || f.Later?)
    case _ => false
  }

  /** What a step by t must do for Fair to be kept. */
  ghost predicate FairMove(half: nat, s: Machine, s': Machine, t: nat)
    requires t < |s.pcs|
  {
    && |s'.pcs| == |s.pcs| && (forall u :: 0 <= u < |s.pcs| && u != t ==> s'.pcs[u] == s.pcs[u])
    && CountOk(half, s') && GoingOk(Ending(s', t), s'.winner.Some?, s'.pcs[t])
    && (Owners(s.owned) <= 0 ==> Owners(s'.owned) == Owners(s.owned) && s'.last == s.last)
  }

  /** User code is running. */
  predicate Calls(pc: Pc) { pc.Idle? || pc.InBlock? || pc.InDealloc? }

  lemma FairRetain(half: nat, s: Machine, t: nat, c: Choice)
    requires Fair(half, s) && t < |s.pcs| && Allowed(half, s, Move(t, c)) && Calls(s.pcs[t]) && c.Retain?
    ensures FairMove(half, s, Fire(half, s, t, c), t)
  {
    assert GoingOk(Ending(s, t), s.winner.Some?, s.pcs[t]) && PcOk(s.winner, t, s.pcs[t]);
    OwnerIsCounted(s.owned, t);
    OwnersAfter(s.owned, t, s.owned[t] + 1);
    OwnersAfter(s.owned, t, s.owned[t] - 1);
  }

  lemma FairRelease(half: nat, s: Machine, t: nat, c: Choice)
    requires Fair(half, s) && t < |s.pcs| && Allowed(half, s, Move(t, c)) && Calls(s.pcs[t]) && c.Release?
    ensures FairMove(half, s, Fire(half, s, t, c), t)
  {
    assert GoingOk(Ending(s, t), s.winner.Some?, s.pcs[t]) && PcOk(s.winner, t, s.pcs[t]);
    OwnerIsCounted(s.owned, t);
    OwnersAfter(s.owned, t, s.owned[t] + 1);
    OwnersAfter(s.owned, t, s.owned[t] - 1);
  }

  lemma FairGive(half: nat, s: Machine, t: nat, c: Choice)
    requires Fair(half, s) && t < |s.pcs| && Allowed(half, s, Move(t, c)) && Calls(s.pcs[t]) && c.Give?
    ensures FairMove(half, s, Fire(half, s, t, c), t)
  {
    assert GoingOk(Ending(s, t), s.winner.Some?, s.pcs[t]) && PcOk(s.winner, t, s.pcs[t]);
    OwnerIsCounted(s.owned, t);
    OwnersAfter(s.owned, t, s.owned[t] - 1);
    if c.to < |s.owned| && c.to != t {
      var mid := s.owned[t := s.owned[t] - 1];
      OwnersAfter(mid, c.to, mid[c.to] + 1);
    }
  }

  lemma FairOther(half: nat, s: Machine, t: nat, c: Choice)
    requires Fair(half, s) && t < |s.pcs| && Allowed(half, s, Move(t, c))
    requires Calls(s.pcs[t]) && !c.Retain? && !c.Release? && !c.Give?
    ensures FairMove(half, s, Fire(half, s, t, c), t)
  {}

  lemma FairSwap(half: nat, s: Machine, t: nat, c: Choice)
    requires Fair(half, s) && t < |s.pcs| && Allowed(half, s, Move(t, c)) && s.pcs[t].AtSwap?
    ensures FairMove(half, s, Fire(half, s, t, c), t)
  {
    assert GoingOk(Ending(s, t), s.winner.Some?, s.pcs[t]) && PcOk(s.winner, t, s.pcs[t]);
  }

  lemma FairTry(half: nat, s: Machine, t: nat, c: Choice)
    requires Fair(half, s) && t < |s.pcs| && Allowed(half, s, Move(t, c))
    requires s.pcs[t].TryRead? || s.pcs[t].TryCas? || s.pcs[t].TryDone?
    ensures FairMove(half, s, Fire(half, s, t, c), t)
  {
    assert GoingOk(Ending(s, t), s.winner.Some?, s.pcs[t]) && PcOk(s.winner, t, s.pcs[t]);
    OwnerIsCounted(s.owned, t);
    OwnersAfter(s.owned, t, s.owned[t] + 1);
    OwnersAfter(s.owned, t, s.owned[t] - 1);
  }

  lemma FairStep(half: nat, s: Machine, m: Move)
    requires Fair(half, s) && Allowed(half, s, m)
    ensures Fair(half, Fire(half, s, m.thread, m.choice))
  {
    var t, c := m.thread, m.choice;
    var s' := Fire(half, s, t, c);
    StepKeepsInv(half, s, t, c);
    if t < |s.pcs| {
      if !Calls(s.pcs[t]) {
        if s.pcs[t].AtSwap? { FairSwap(half, s, t, c); } else { FairTry(half, s, t, c); }
      } else {
        match c
        case Retain => FairRetain(half, s, t, c);
        case Release => FairRelease(half, s, t, c);
        case Give(_) => FairGive(half, s, t, c);
        case _ => FairOther(half, s, t, c);
      }
      assert FairMove(half, s, s', t);
      forall u | 0 <= u < |s'.pcs| ensures GoingOk(Ending(s', u), s'.winner.Some?, s'.pcs[u]) {
        assert GoingOk(Ending(s, u), s.winner.Some?, s.pcs[u]);
      }
    }
  }

  lemma {:induction false} FairRun(half: nat, s: Machine, sched: seq<Move>)
    requires Fair(half, s) && Disciplined(half, s, sched)
    ensures Fair(half, Run(half, s, sched))
    decreases |sched|
  {
    if sched != [] {
      FairStep(half, s, sched[0]);
      FairRun(half, Fire(half, s, sched[0].thread, sched[0].choice), sched[1..]);
    }
  }

  lemma InitIsFair(half: nat, n: nat)
    requires n > 0 && half >= 4 && half % 2 == 0
    ensures Fair(half, Init(n))
  {
    OnlyFirstOwns(Init(n).owned);
  }

  /** -(NSUInteger)retainCount */
  function RetainCount(rc: int): int { (rc + 2) / 2 }

  /** -(BOOL)_isDeallocating, when it does not trap. */
  predicate IsDeallocating(rc: int) { rc == -2 || Odd(rc) }

  /**
   * With disciplined callers no trap fires; while there are owners the counter says how many; and
   * when there are none, the thread that released the last one is the one that deallocates.
   */
  lemma DisciplinedRuns(half: nat, n: nat, sched: seq<Move>)
    requires n > 0 && half >= 4 && half % 2 == 0 && Disciplined(half, Init(n), sched)
    ensures var s := Run(half, Init(n), sched);
      && !s.trapped
      && (IsDeallocating(s.rc) <==> Owners(s.owned) == 0)
      && (Owners(s.owned) > 0 ==> s.rc == 2 * (Owners(s.owned) - 1) && RetainCount(s.rc) == Owners(s.owned))
      && (s.winner.Some? ==> Owners(s.owned) == 0 && s.winner == s.last)
      && (Owners(s.owned) == 0 ==>
            (s.last.Some? && s.last.value < |s.pcs| && (s.winner == s.last || LettingGo(s.pcs[s.last.value]))))
  {
    var s := Run(half, Init(n), sched);
    InitIsFair(half, n);
    FairRun(half, Init(n), sched);
    if |s.owned| > 0 { OwnerIsCounted(s.owned, 0); }
  }

  // ------------------------------------------------------------------ what calls answer, and when they trap

  /** t is inside _tryRetain at every step of the schedule. */
  predicate Trying(half: nat, s: Machine, t: nat, sched: seq<Move>)
    decreases |sched|
  {
    sched == [] ||
    (t < |s.pcs| && (s.pcs[t].TryRead? || s.pcs[t].TryCas?)
     && Trying(half, Fire(half, s, sched[0].thread, sched[0].choice), t, sched[1..]))
  }

  /** How often t's own steps retained by a _tryRetain. */
  function OwnTried(half: nat, s: Machine, t: nat, sched: seq<Move>): int
    decreases |sched|
  {
    if sched == [] then 0
    else
      var s' := Fire(half, s, sched[0].thread, sched[0].choice);
      (if sched[0].thread == t then s'.tried - s.tried else 0) + OwnTried(half, s', t, sched[1..])
  }

  lemma OthersStand(half: nat, s: Machine, u: nat, c: Choice, t: nat)
    requires u != t && t < |s.pcs|
    ensures t < |Fire(half, s, u, c).pcs| && Fire(half, s, u, c).pcs[t] == s.pcs[t]
  {}

  /**
   * A _tryRetain that answers true retained exactly once; one that answers false retained not at all,
   * and at some moment of the call the object was deallocating.
   */
  lemma {:induction false} TryOutcome(half: nat, s: Machine, t: nat, sched: seq<Move>, ok: bool, u: Pc) returns (i: nat)
    requires t < |s.pcs| && (s.pcs[t].TryRead? || s.pcs[t].TryCas?) && Trying(half, s, t, sched)
    requires var s' := Run(half, s, sched); t < |s'.pcs| && s'.pcs[t] == TryDone(ok, u)
    ensures OwnTried(half, s, t, sched) == (if ok then 1 else 0)
    ensures i < |sched| && (!ok ==> IsDeallocating(Run(half, s, sched[..i]).rc))
    decreases |sched|
  {
    var m := sched[0];
    var s1 := Fire(half, s, m.thread, m.choice);
    if m.thread != t { OthersStand(half, s, m.thread, m.choice, t); }
    if t < |s1.pcs| && s1.pcs[t].TryDone? {
      assert sched[..0] == [];
      assert sched[1..] == [];
      i := 0;
    } else {
      var j := TryOutcome(half, s1, t, sched[1..], ok, u);
      i := j + 1;
      assert sched[..i][0] == m && sched[..i][1..] == sched[1..][..j];
    }
  }

  /** With disciplined callers an attempt is refused exactly when there are no owners left. */
  lemma RefusedIffNoOwners(half: nat, n: nat, sched: seq<Move>, t: nat, c: Choice)
    requires n > 0 && half >= 4 && half % 2 == 0 && Disciplined(half, Init(n), sched)
    requires var s := Run(half, Init(n), sched); t < |s.pcs| && s.pcs[t].TryRead?
    ensures var s := Run(half, Init(n), sched);
      var s' := Fire(half, s, t, c);
      !s'.trapped && t < |s'.pcs| && (s'.pcs[t] == TryDone(false, s.pcs[t].under) <==> Owners(s.owned) == 0)
  {
    DisciplinedRuns(half, n, sched);
    InitIsFair(half, n);
    FairRun(half, Init(n), sched);
  }

  lemma TwoMoves(half: nat, s: Machine, m: seq<Move>)
    requires |m| == 2
    ensures Run(half, s, m) == Fire(half, Fire(half, s, m[0].thread, m[0].choice), m[1].thread, m[1].choice)
  {
    var s1 := Fire(half, s, m[0].thread, m[0].choice);
    assert m[1..] == [m[1]] && [m[1]][1..] == [];
    assert Run(half, s1, [m[1]]) == Run(half, Fire(half, s1, m[1].thread, m[1].choice), []);
  }

  lemma ThreeMoves(half: nat, s: Machine, m: seq<Move>)
    requires |m| == 3
    ensures Run(half, s, m[..2]) == Fire(half, Fire(half, s, m[0].thread, m[0].choice), m[1].thread, m[1].choice)
    ensures Run(half, s, m) == Fire(half, Run(half, s, m[..2]), m[2].thread, m[2].choice)
  {
    var s1 := Fire(half, s, m[0].thread, m[0].choice);
    TwoMoves(half, s, m[..2]);
    TwoMoves(half, s1, m[1..]);
    assert Run(half, s, m) == Run(half, s1, m[1..]);
  }

  /** Undisturbed, it refuses an object that is deallocating, traps on one over-released, and retains any other. */
  lemma TryAlone(half: nat, s: Machine, t: nat)
    requires t < |s.pcs| && !s.trapped && Calls(s.pcs[t]) && (s.pcs[t].InDealloc? ==> !s.pcs[t].fate.Bogus?)
    ensures var call := [Move(t, TryRetain), Move(t, Go), Move(t, Go)];
      if IsDeallocating(s.rc) then Run(half, s, call[..2]) == Goto(s, t, TryDone(false, s.pcs[t]))
      else if s.rc < -2 then Run(half, s, call).trapped && Run(half, s, call).rc == s.rc
      else
        var s' := s.(rc := Wrap(half, s.rc + 2), tried := s.tried + 1);
        Run(half, s, call) == Own(Goto(s', t, TryDone(true, s.pcs[t])), t, 1)
  {
    var call := [Move(t, TryRetain), Move(t, Go), Move(t, Go)];
    ThreeMoves(half, s, call);
    var u := s.pcs[t];
    assert s.pcs[t := TryRead(u)][t := TryDone(false, u)] == s.pcs[t := TryDone(false, u)];
    assert s.pcs[t := TryRead(u)][t := TryCas(s.rc, u)][t := TryDone(true, u)] == s.pcs[t := TryDone(true, u)];
  }

  predicate Answered(s: Machine, t: nat) { s.trapped || (t < |s.pcs| && s.pcs[t].TryDone?) }

  /** Started or stale, an attempt left alone answers or traps within three steps. */
  lemma TryFinishesAlone(half: nat, s: Machine, t: nat)
    requires t < |s.pcs| && !s.trapped && (s.pcs[t].TryRead? || s.pcs[t].TryCas?)
    ensures exists n :: n <= 3 && Answered(Run(half, s, Alone(t, n)), t)
  {
    var go := [Move(t, Go), Move(t, Go), Move(t, Go)];
    ThreeMoves(half, s, go);
    assert Alone(t, 0) == [];
    assert Alone(t, 1) == [Move(t, Go)];
    assert Alone(t, 2) == [Move(t, Go)] + Alone(t, 1) == go[..2];
    assert Alone(t, 3) == [Move(t, Go)] + Alone(t, 2) == go;
    var s1 := Fire(half, s, t, Go);
    assert Run(half, s, Alone(t, 1)) == s1;
    if s1.trapped || s1.pcs[t].TryDone? {
      assert Run(half, s, Alone(t, 1)) == s1;
    } else if Fire(half, s1, t, Go).trapped || Fire(half, s1, t, Go).pcs[t].TryDone? {
      assert Run(half, s, Alone(t, 2)) == Fire(half, s1, t, Go);
    } else {
      assert Run(half, s, Alone(t, 3)) == Fire(half, Fire(half, s1, t, Go), t, Go);
    }
  }

  function Alone(t: nat, n: nat): seq<Move> { if n == 0 then [] else [Move(t, Go)] + Alone(t, n - 1) }

  /** A logic block may resurrect: it retains, says so, and the object has one owner again. */
  lemma Resurrected(half: nat, s: Machine, t: nat)
    requires half > 2 && t < |s.pcs| && !s.trapped && s.pcs[t].InBlock? && s.rc == -2
    ensures Run(half, s, [Move(t, Retain), Move(t, Decide(Resurrect))])
         == Own(Goto(s.(rc := 0), t, s.pcs[t].under), t, 1)
  {
    var s1 := Fire(half, s, t, Retain);
    assert s1 == Own(s.(rc := 0), t, 1);
    assert [Move(t, Retain), Move(t, Decide(Resurrect))][1..] == [Move(t, Decide(Resurrect))];
    assert Run(half, s1, [Move(t, Decide(Resurrect))]) == Fire(half, s1, t, Decide(Resurrect));
  }

  /** A reference used after the last release, or a disposition that is none. */
  predicate Misuse(s: Machine, t: nat, c: Choice)
    requires t < |s.pcs|
  {
    match s.pcs[t]
    case AtSwap(_, _) => s.rc != -2
    case TryRead(_) => s.rc < -2 && !Odd(s.rc)
    case TryCas(_, _) => false
    case TryDone(_, _) => false
    case InDealloc(f, _) => f.Bogus? || (c.Retain? && s.rc < -2) || (c.Release? && s.rc < 0)
    case _ => (c.Retain? && s.rc < -2) || (c.Release? && s.rc < 0)
  }

  /** A step traps exactly on such a misuse, and the state then stands still. */
  lemma TrapsIffMisuse(half: nat, s: Machine, t: nat, c: Choice, sched: seq<Move>)
    requires t < |s.pcs| && !s.trapped
    ensures Fire(half, s, t, c).trapped <==> Misuse(s, t, c)
    ensures Misuse(s, t, c) ==> Run(half, Fire(half, s, t, c), sched) == Fire(half, s, t, c)
  {
    if Misuse(s, t, c) { TrappedStays(half, Fire(half, s, t, c), sched); }
  }

  lemma {:induction false} TrappedStays(half: nat, s: Machine, sched: seq<Move>)
    requires s.trapped
    ensures Run(half, s, sched) == s
    decreases |sched|
  {
    if sched != [] { TrappedStays(half, s, sched[1..]); }
  }
}

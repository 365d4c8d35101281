/** What every schedule of SplitRefcount keeps. */
module SplitRefcountProofs {
  import opened Options
  import opened SplitRefcount

  /** n is h added up some number of times. */
  predicate Multiple(n: nat, h: nat)
    requires h > 0
  {
    n == 0 || (n >= h && Multiple(n - h, h))
  }

  /** Counts taken out of one place and not yet put into the other. */
  function InFlight(k: nat, pc: Pc): nat
    requires k > 0
  {
    match pc
    case Ret(RetAdd(_)) => Half(k)
    case Rel(RelStore1(_, b)) => b.borrowed
    case Rel(RelStore2(_, b)) => b.borrowed
    case Rel(RelPutBack(b)) => b.borrowed
    case _ => 0
  }

  /** The in-flight amount of whoever holds the lock. */
  function Transit(k: nat, s: Machine): nat
    requires k > 0
  {
    if s.lock.Some? && s.lock.value < |s.pcs| then InFlight(k, s.pcs[s.lock.value]) else 0
  }

  predicate Holds(pc: Pc) {
    match pc
    case Idle => false
    case Ret(r) => RetHolds(r)
    case Rel(l) => RelHolds(l)
    case Cnt(n) => n.CntLoad? || n.CntRead? || n.CntUnlock?
    case Flg(_, _) => false
  }

  predicate RetHolds(r: RetPc) {
    match r
    case RetLoad(_, attempt) => attempt
    case RetTop(_, attempt, _, locked) => attempt || locked
    case RetStore(_, attempt, _, locked) => attempt || locked
    case _ => r.RetAdd? || r.RetUnlock? || r.TryHome?
  }

  predicate RelHolds(l: RelPc) {
    match l
    case RelTop(_, _, locked) => locked
    case RelStore(_, _, locked) => locked
    case RelReturn(locked, _) => locked
    case _ => !l.RelLoad? && !l.RelWait?
  }

  ghost predicate CoreOk(k: nat, s: Machine)
    requires k > 0
  {
    && s.word.extra < Full(k)
    && s.word.extra + s.table + Transit(k, s) == Balance(s)
    && Multiple(s.table, Half(k))
    && (s.word.hasSide <==> s.table + Transit(k, s) > 0)
    && (s.lock.Some? ==> s.lock.value < |s.pcs| && Holds(s.pcs[s.lock.value]))
    && (s.winner.Some? <==> IsDeallocating(s.word))
    && s.trueReturns <= 1
    && (s.trueReturns == 1 ==> s.winner.Some?)
    && (s.winner.Some? && s.trueReturns == 0 ==> WillReturnTrue(s, s.winner.value))
  }

  predicate WillReturnTrue(s: Machine, t: nat) {
    t < |s.pcs| && s.pcs[t].Rel? && s.pcs[t].l.RelReturn? && s.pcs[t].l.dealloc
  }

  /** What thread t may rely on, where it is. */
  ghost predicate LocalOk(k: nat, s: Machine, t: nat)
    requires k > 0 && t < |s.pcs|
  {
    && (Holds(s.pcs[t]) ==> s.lock == Some(t))
    && match s.pcs[t]
       case Idle => true
       case Ret(r) => RetOk(k, s, r)
       case Rel(l) => RelOk(k, s, t, l)
       case Cnt(n) => CntOk(s, n)
       case Flg(f, g) => FlagOk(s, f, g)
  }

  ghost predicate RetOk(k: nat, s: Machine, r: RetPc)
    requires k > 0
  {
    match r
    case RetTop(full, _, seen, locked) => (locked ==> full) && (IsDeallocating(seen) ==> IsDeallocating(s.word))
    case RetWait(seen) => AddCounts(k, seen, 1).carry && !IsDeallocating(seen)
    case RetStore(full, _, seen, locked) =>
      (locked ==> full) && (AddCounts(k, seen, 1).carry ==> locked) && !IsDeallocating(seen)
    case TryHome(ok) => !ok ==> IsDeallocating(s.word)
    case TryLost => IsDeallocating(s.word)
    case _ => true
  }

  ghost predicate RelOk(k: nat, s: Machine, t: nat, l: RelPc)
    requires k > 0
  {
    match l
    case RelTop(full, seen, locked) =>
      (locked ==> full && seen.hasSide == s.word.hasSide) && (IsDeallocating(seen) ==> IsDeallocating(s.word))
    case RelStore(full, seen, locked) => (locked ==> full) && seen.extra > 0
    case RelSub(seen) => seen.extra == 0 && s.word.hasSide
    case RelStore1(seen, b) =>
      seen.extra == 0 && b.borrowed == Half(k) && b.remaining == s.table && s.word.hasSide
    case RelStore2(seen, b) => b.borrowed == Half(k) && b.remaining == s.table && s.word.hasSide
    case RelPutBack(b) => b.borrowed == Half(k) && s.word.hasSide
    case RelClear(d) => s.table == 0 && !d
    case RelEmpty => false
    case RelReturn(_, d) => d ==> s.winner == Some(t) && s.trueReturns == 0
    case _ => true
  }

  ghost predicate CntOk(s: Machine, n: CntPc) {
    match n
    case CntRead(bits, at) => bits.extra + (if bits.hasSide then s.table else 0) == at
    case CntUnlock(rc, at) => rc == at
    case CntDone(rc, at) => rc == at
    case _ => true
  }

  ghost predicate FlagOk(s: Machine, f: Flag, g: FlagPc) {
    match g
    case FlagLoad => true
    case FlagStore(seen) => HasFlag(seen, f) ==> HasFlag(s.word, f)
    case FlagDone => HasFlag(s.word, f)
  }

  ghost predicate Inv(k: nat, s: Machine)
    requires k > 0
  {
    CoreOk(k, s) && forall t :: 0 <= t < |s.pcs| ==> LocalOk(k, s, t)
  }

  /** What one step by t leaves alone, and what it can only move one way. */
  ghost predicate Frame(s: Machine, s': Machine, t: nat)
    requires t < |s.pcs|
  {
    && |s'.pcs| == |s.pcs|
    && (forall u :: 0 <= u < |s.pcs| && u != t ==> s'.pcs[u] == s.pcs[u])
    && (s.lock.Some? && s.lock.value != t ==>
          s'.lock == s.lock && s'.table == s.table && s'.word.hasSide == s.word.hasSide)
    && (s'.lock == s.lock || s'.lock == None || s'.lock == Some(t))
    && s'.word.cls == s.word.cls
    && (s.word.assoc ==> s'.word.assoc) && (s.word.weak ==> s'.word.weak)
    && (IsDeallocating(s.word) ==> Frozen(s, s'))
    && (s'.winner == s.winner || (s.winner == None && s'.winner == Some(t)))
    && (s'.trueReturns == s.trueReturns || WillReturnTrue(s, t))
  }

  /** Nothing that counts references differs. */
  ghost predicate Frozen(s: Machine, s': Machine) {
    && IsDeallocating(s'.word)
    && s'.retains == s.retains && s'.releases == s.releases
    && s'.winner == s.winner
  }

  // ------------------------------------------------------------------ one step

  lemma HalfFull(k: nat)
    requires k >= 2
    ensures Full(k) == 2 * Half(k) && Half(k) >= 2
  {}

  lemma OthersOk(k: nat, s: Machine, s': Machine, t: nat)
    requires k > 0 && Inv(k, s) && t < |s.pcs| && Frame(s, s', t)
    ensures forall u :: 0 <= u < |s'.pcs| && u != t ==> LocalOk(k, s', u)
  {
    forall u | 0 <= u < |s'.pcs| && u != t ensures LocalOk(k, s', u) {
      assert LocalOk(k, s, u) && LocalOk(k, s, t);
    }
  }

  ghost predicate StepOk(k: nat, s: Machine, t: nat, s': Machine)
    requires k > 0 && t < |s.pcs|
  {
    Frame(s, s', t) && CoreOk(k, s') && LocalOk(k, s', t)
  }

  /** The part of a step that does not depend on which step it is. */
  lemma Moved(k: nat, s: Machine, s': Machine, t: nat, pc: Pc)
    requires k > 0 && Inv(k, s) && t < |s.pcs| && s'.pcs == s.pcs[t := pc]
    requires Holds(pc) <==> s'.lock == Some(t)
    requires s'.lock == s.lock || (s.lock.None? && s'.lock == Some(t)) || (s.lock == Some(t) && s'.lock.None?)
    requires s.lock != Some(t) ==> s'.table == s.table && s'.word.hasSide == s.word.hasSide
    requires s'.word.cls == s.word.cls && (s.word.assoc ==> s'.word.assoc) && (s.word.weak ==> s'.word.weak)
    requires IsDeallocating(s.word) ==> Frozen(s, s')
    requires s'.winner == s.winner || (s.winner == None && s'.winner == Some(t))
    requires s'.trueReturns == s.trueReturns || WillReturnTrue(s, t)
    ensures Frame(s, s', t)
    ensures Transit(k, s') == Transit(k, s) + InFlight(k, pc) - InFlight(k, s.pcs[t])
    ensures s'.lock.Some? ==> s'.lock.value < |s'.pcs| && Holds(s'.pcs[s'.lock.value])
  {
    assert LocalOk(k, s, t);
  }

  lemma RetTopStep(k: nat, s: Machine, t: nat, r: RetPc, c: Choice)
    requires k >= 2 && Inv(k, s) && t < |s.pcs| && s.pcs[t] == Ret(r) && r.RetTop?
    ensures StepOk(k, s, t, FireRetain(k, s, t, r, c))
  {
    assert LocalOk(k, s, t);
    HalfFull(k);
    var s' := FireRetain(k, s, t, r, c);
    Moved(k, s, s', t, s'.pcs[t]);
  }

  lemma RetStoreStep(k: nat, s: Machine, t: nat, r: RetPc, c: Choice)
    requires k >= 2 && Inv(k, s) && t < |s.pcs| && s.pcs[t] == Ret(r) && r.RetStore?
    ensures StepOk(k, s, t, FireRetain(k, s, t, r, c))
  {
    assert LocalOk(k, s, t);
    HalfFull(k);
    var s' := FireRetain(k, s, t, r, c);
    Moved(k, s, s', t, s'.pcs[t]);
  }

  lemma RetLockStep(k: nat, s: Machine, t: nat, r: RetPc, c: Choice)
    requires k >= 2 && Inv(k, s) && t < |s.pcs| && s.pcs[t] == Ret(r)
    requires r.RetWait? || r.TryWait? || r.RetAdd? || r.RetUnlock?
    ensures StepOk(k, s, t, FireRetain(k, s, t, r, c))
  {
    assert LocalOk(k, s, t);
    HalfFull(k);
    var s' := FireRetain(k, s, t, r, c);
    Moved(k, s, s', t, s'.pcs[t]);
  }

  lemma RetOtherStep(k: nat, s: Machine, t: nat, r: RetPc, c: Choice)
    requires k >= 2 && Inv(k, s) && t < |s.pcs| && s.pcs[t] == Ret(r) && (r.RetLoad? || r.TryHome? || r.TryLost?)
    ensures StepOk(k, s, t, FireRetain(k, s, t, r, c))
  {
    assert LocalOk(k, s, t);
    HalfFull(k);
    var s' := FireRetain(k, s, t, r, c);
    Moved(k, s, s', t, s'.pcs[t]);
  }

  lemma RelTopStep(k: nat, s: Machine, t: nat, l: RelPc, c: Choice)
    requires k >= 2 && Inv(k, s) && t < |s.pcs| && s.pcs[t] == Rel(l) && l.RelTop?
    ensures StepOk(k, s, t, FireRelease(k, s, t, l, c))
  {
    assert LocalOk(k, s, t);
    HalfFull(k);
    var s' := FireRelease(k, s, t, l, c);
    Moved(k, s, s', t, s'.pcs[t]);
  }

  lemma RelStoreStep(k: nat, s: Machine, t: nat, l: RelPc, c: Choice)
    requires k >= 2 && Inv(k, s) && t < |s.pcs| && s.pcs[t] == Rel(l) && l.RelStore?
    ensures StepOk(k, s, t, FireRelease(k, s, t, l, c))
  {
    assert LocalOk(k, s, t);
    HalfFull(k);
    var s' := FireRelease(k, s, t, l, c);
    Moved(k, s, s', t, s'.pcs[t]);
  }

  lemma RelSubStep(k: nat, s: Machine, t: nat, l: RelPc, c: Choice)
    requires k >= 2 && Inv(k, s) && t < |s.pcs| && s.pcs[t] == Rel(l) && l.RelSub?
    ensures StepOk(k, s, t, FireRelease(k, s, t, l, c))
  {
    assert LocalOk(k, s, t);
    HalfFull(k);
    var s' := FireRelease(k, s, t, l, c);
    Moved(k, s, s', t, s'.pcs[t]);
  }

  lemma RelStore1Step(k: nat, s: Machine, t: nat, l: RelPc, c: Choice)
    requires k >= 2 && Inv(k, s) && t < |s.pcs| && s.pcs[t] == Rel(l) && l.RelStore1?
    ensures StepOk(k, s, t, FireRelease(k, s, t, l, c))
  {
    assert LocalOk(k, s, t);
    HalfFull(k);
    var s' := FireRelease(k, s, t, l, c);
    Moved(k, s, s', t, s'.pcs[t]);
  }

  lemma RelStore2Step(k: nat, s: Machine, t: nat, l: RelPc, c: Choice)
    requires k >= 2 && Inv(k, s) && t < |s.pcs| && s.pcs[t] == Rel(l) && l.RelStore2?
    ensures StepOk(k, s, t, FireRelease(k, s, t, l, c))
  {
    assert LocalOk(k, s, t);
    HalfFull(k);
    var s' := FireRelease(k, s, t, l, c);
    Moved(k, s, s', t, s'.pcs[t]);
  }

  lemma RelPutBackStep(k: nat, s: Machine, t: nat, l: RelPc, c: Choice)
    requires k >= 2 && Inv(k, s) && t < |s.pcs| && s.pcs[t] == Rel(l) && l.RelPutBack?
    ensures StepOk(k, s, t, FireRelease(k, s, t, l, c))
  {
    assert LocalOk(k, s, t);
    HalfFull(k);
    var s' := FireRelease(k, s, t, l, c);
    Moved(k, s, s', t, s'.pcs[t]);
  }

  lemma RelOtherStep(k: nat, s: Machine, t: nat, l: RelPc, c: Choice)
    requires k >= 2 && Inv(k, s) && t < |s.pcs| && s.pcs[t] == Rel(l)
    requires l.RelLoad? || l.RelWait? || l.RelReload? || l.RelClear? || l.RelEmpty?
    ensures StepOk(k, s, t, FireRelease(k, s, t, l, c))
  {
    assert LocalOk(k, s, t);
    HalfFull(k);
    var s' := FireRelease(k, s, t, l, c);
    Moved(k, s, s', t, s'.pcs[t]);
  }

  lemma RelReturnStep(k: nat, s: Machine, t: nat, l: RelPc, c: Choice)
    requires k >= 2 && Inv(k, s) && t < |s.pcs| && s.pcs[t] == Rel(l) && l.RelReturn?
    ensures StepOk(k, s, t, FireRelease(k, s, t, l, c))
  {
    assert LocalOk(k, s, t);
    HalfFull(k);
    var s' := FireRelease(k, s, t, l, c);
    Moved(k, s, s', t, s'.pcs[t]);
  }

  lemma CountStep(k: nat, s: Machine, t: nat, n: CntPc)
    requires k >= 2 && Inv(k, s) && t < |s.pcs| && s.pcs[t] == Cnt(n)
    ensures StepOk(k, s, t, FireCount(s, t, n))
  {
    assert LocalOk(k, s, t);
    var s' := FireCount(s, t, n);
    Moved(k, s, s', t, s'.pcs[t]);
  }

  lemma FlagStoreStep(k: nat, s: Machine, t: nat, f: Flag, seen: Isa, c: Choice)
    requires k >= 2 && Inv(k, s) && t < |s.pcs| && s.pcs[t] == Flg(f, FlagStore(seen))
    ensures StepOk(k, s, t, FireFlag(s, t, f, FlagStore(seen), c))
  {
    assert LocalOk(k, s, t);
    var s' := FireFlag(s, t, f, FlagStore(seen), c);
    assert s'.word == s.word || s'.word == WithFlag(s.word, f);
    Moved(k, s, s', t, s'.pcs[t]);
  }

  lemma FlagStep(k: nat, s: Machine, t: nat, f: Flag, g: FlagPc, c: Choice)
    requires k >= 2 && Inv(k, s) && t < |s.pcs| && s.pcs[t] == Flg(f, g)
    ensures StepOk(k, s, t, FireFlag(s, t, f, g, c))
  {
    match g {
      case FlagStore(seen) => FlagStoreStep(k, s, t, f, seen, c);
      case FlagLoad | FlagDone =>
        assert LocalOk(k, s, t);
        var s' := FireFlag(s, t, f, g, c);
        Moved(k, s, s', t, s'.pcs[t]);
    }
  }

  lemma BeginStep(k: nat, s: Machine, t: nat, c: Choice)
    requires k >= 2 && Inv(k, s) && t < |s.pcs| && s.pcs[t].Idle?
    ensures StepOk(k, s, t, Begin(s, t, c))
  {}

  lemma RetainStep(k: nat, s: Machine, t: nat, r: RetPc, c: Choice)
    requires k >= 2 && Inv(k, s) && t < |s.pcs| && s.pcs[t] == Ret(r)
    ensures StepOk(k, s, t, FireRetain(k, s, t, r, c))
  {
    match r
    case RetTop(_, _, _, _) => RetTopStep(k, s, t, r, c);
    case RetStore(_, _, _, _) => RetStoreStep(k, s, t, r, c);
    case RetWait(_) | TryWait | RetAdd(_) | RetUnlock => RetLockStep(k, s, t, r, c);
    case RetLoad(_, _) | TryHome(_) | TryLost => RetOtherStep(k, s, t, r, c);
  }

  lemma ReleaseStep(k: nat, s: Machine, t: nat, l: RelPc, c: Choice)
    requires k >= 2 && Inv(k, s) && t < |s.pcs| && s.pcs[t] == Rel(l)
    ensures StepOk(k, s, t, FireRelease(k, s, t, l, c))
  {
    match l
    case RelTop(_, _, _) => RelTopStep(k, s, t, l, c);
    case RelStore(_, _, _) => RelStoreStep(k, s, t, l, c);
    case RelSub(_) => RelSubStep(k, s, t, l, c);
    case RelStore1(_, _) => RelStore1Step(k, s, t, l, c);
    case RelStore2(_, _) => RelStore2Step(k, s, t, l, c);
    case RelPutBack(_) => RelPutBackStep(k, s, t, l, c);
    case RelReturn(_, _) => RelReturnStep(k, s, t, l, c);
    case RelLoad(_) | RelWait | RelReload | RelClear(_) | RelEmpty => RelOtherStep(k, s, t, l, c);
  }

  lemma StepKeepsInv(k: nat, s: Machine, t: nat, c: Choice)
    requires k >= 2 && Inv(k, s)
    ensures Inv(k, Fire(k, s, t, c))
    ensures t < |s.pcs| ==> Frame(s, Fire(k, s, t, c), t)
  {
    if t < |s.pcs| {
      var s' := Fire(k, s, t, c);
      match s.pcs[t] {
        case Idle => BeginStep(k, s, t, c);
        case Ret(r) => RetainStep(k, s, t, r, c);
        case Rel(l) => ReleaseStep(k, s, t, l, c);
        case Cnt(n) => CountStep(k, s, t, n);
        case Flg(f, g) => FlagStep(k, s, t, f, g, c);
      }
      assert StepOk(k, s, t, s');
      OthersOk(k, s, s', t);
      forall u | 0 <= u < |s'.pcs| ensures LocalOk(k, s', u) {}
    }
  }
}

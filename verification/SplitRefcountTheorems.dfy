/** The whole-run theorems about the split reference count. */
module SplitRefcountTheorems {
  import opened Options
  import opened SplitRefcount
  import opened SplitRefcountProofs

  /** The state reached from a fresh object with n threads. */
  function Reached(k: nat, n: nat, cls: nat, sched: seq<Move>): Machine
    requires k > 0
  {
    Run(k, Init(n, cls), sched)
  }

  lemma InitOk(k: nat, n: nat, cls: nat)
    requires k >= 2
    ensures Inv(k, Init(n, cls))
  {}

  lemma {:induction false} RunKeepsInv(k: nat, s: Machine, sched: seq<Move>)
    requires k >= 2 && Inv(k, s)
    ensures Inv(k, Run(k, s, sched))
    decreases |sched|
  {
    if sched != [] {
      StepKeepsInv(k, s, sched[0].thread, sched[0].choice);
      RunKeepsInv(k, Fire(k, s, sched[0].thread, sched[0].choice), sched[1..]);
    }
  }

  lemma ReachedOk(k: nat, n: nat, cls: nat, sched: seq<Move>)
    requires k >= 2
    ensures Inv(k, Reached(k, n, cls, sched))
  {
    InitOk(k, n, cls);
    RunKeepsInv(k, Init(n, cls), sched);
  }

  /** No count is lost or made up, and the object is deallocating exactly when the count is zero. */
  lemma CountConserved(k: nat, n: nat, cls: nat, sched: seq<Move>)
    requires k >= 2
    ensures var s := Reached(k, n, cls, sched);
      && s.word.extra + s.table + Transit(k, s) == 1 + s.retains - s.releases
      && (1 + s.retains - s.releases == 0 <==> IsDeallocating(s.word))
  {
    ReachedOk(k, n, cls, sched);
  }

  /** The table moves in whole halves, and has_sidetable_rc tells whether it holds any. */
  lemma TableInHalves(k: nat, n: nat, cls: nat, sched: seq<Move>)
    requires k >= 2
    ensures var s := Reached(k, n, cls, sched);
      && Multiple(s.table, Half(k))
      && (s.lock.None? ==> (s.word.hasSide <==> s.table > 0))
  {
    ReachedOk(k, n, cls, sched);
  }

  /** A borrow gets exactly one half, and the word its first store would write is not deallocating. */
  lemma BorrowIsExact(k: nat, n: nat, cls: nat, sched: seq<Move>, t: nat, seen: Isa, c: Choice)
    requires k >= 2
    requires var s := Reached(k, n, cls, sched); t < |s.pcs| && s.pcs[t] == Rel(RelSub(seen))
    ensures var s := Reached(k, n, cls, sched);
      && s.table >= Half(k)
      && var b := Borrow(Half(k), s.table - Half(k));
         && Fire(k, s, t, c).pcs[t] == Rel(RelStore1(seen, b))
         && !IsDeallocating(FirstBorrowWord(seen, b))
  {
    var s := Reached(k, n, cls, sched);
    ReachedOk(k, n, cls, sched);
    HalfFull(k);
    assert LocalOk(k, s, t);
  }

  /** The fall-through for an empty side table is never taken. */
  lemma NeverEmptyAfterAll(k: nat, n: nat, cls: nat, sched: seq<Move>, t: nat)
    requires k >= 2 && t < |Reached(k, n, cls, sched).pcs|
    ensures Reached(k, n, cls, sched).pcs[t] != Rel(RelEmpty)
  {
    ReachedOk(k, n, cls, sched);
    assert LocalOk(k, Reached(k, n, cls, sched), t);
  }

  /** At most one release ever reports that it deallocates; once all calls are done, just one if the count is zero. */
  lemma DeallocatedOnce(k: nat, n: nat, cls: nat, sched: seq<Move>)
    requires k >= 2
    ensures var s := Reached(k, n, cls, sched);
      && s.trueReturns <= 1
      && (s.trueReturns == 1 ==> 1 + s.retains == s.releases)
      && (1 + s.retains == s.releases && (forall t :: 0 <= t < |s.pcs| ==> s.pcs[t].Idle?) ==> s.trueReturns == 1)
  {
    ReachedOk(k, n, cls, sched);
  }

  /** Deallocating is final: no retain or release takes effect from then on. */
  lemma {:induction false} DeallocatingIsFinal(k: nat, s: Machine, sched: seq<Move>)
    requires k >= 2 && Inv(k, s) && IsDeallocating(s.word)
    ensures Frozen(s, Run(k, s, sched))
    decreases |sched|
  {
    if sched != [] {
      StepKeepsInv(k, s, sched[0].thread, sched[0].choice);
      DeallocatingIsFinal(k, Fire(k, s, sched[0].thread, sched[0].choice), sched[1..]);
    }
  }

  /** A flag once stored, and the class bits, survive everything that follows. */
  lemma {:induction false} FlagsSurvive(k: nat, s: Machine, sched: seq<Move>)
    requires k >= 2 && Inv(k, s)
    ensures var s' := Run(k, s, sched);
      && s'.word.cls == s.word.cls
      && (s.word.assoc ==> s'.word.assoc) && (s.word.weak ==> s'.word.weak)
    decreases |sched|
  {
    if sched != [] {
      StepKeepsInv(k, s, sched[0].thread, sched[0].choice);
      FlagsSurvive(k, Fire(k, s, sched[0].thread, sched[0].choice), sched[1..]);
    }
  }

  /** A flag setter that has finished left its flag set, and it is still set. */
  lemma SetterSetsFlag(k: nat, n: nat, cls: nat, sched: seq<Move>, t: nat, f: Flag)
    requires k >= 2
    requires var s := Reached(k, n, cls, sched); t < |s.pcs| && s.pcs[t] == Flg(f, FlagDone)
    ensures HasFlag(Reached(k, n, cls, sched).word, f)
  {
    ReachedOk(k, n, cls, sched);
    assert LocalOk(k, Reached(k, n, cls, sched), t);
  }

  /** rootRetainCount answers the count as it was when it loaded the word. */
  lemma RetainCountIsExact(k: nat, n: nat, cls: nat, sched: seq<Move>, t: nat, rc: nat, at: int)
    requires k >= 2
    requires var s := Reached(k, n, cls, sched); t < |s.pcs| && s.pcs[t] == Cnt(CntDone(rc, at))
    ensures rc == at
  {
    ReachedOk(k, n, cls, sched);
    assert LocalOk(k, Reached(k, n, cls, sched), t);
  }

  /** at is the count at the load: the load step records it. */
  lemma RetainCountLoads(k: nat, n: nat, cls: nat, sched: seq<Move>, t: nat, c: Choice)
    requires k >= 2
    requires var s := Reached(k, n, cls, sched); t < |s.pcs| && s.pcs[t] == Cnt(CntLoad)
    ensures var s := Reached(k, n, cls, sched);
      && Fire(k, s, t, c).pcs[t] == Cnt(CntRead(s.word, s.word.extra + s.table))
      && s.lock == Some(t) && s.word.extra + s.table == 1 + s.retains - s.releases
  {
    var s := Reached(k, n, cls, sched);
    ReachedOk(k, n, cls, sched);
    assert LocalOk(k, s, t);
  }

  /** rootTryRetain answers nil for a deallocating object only, and the object is one when it does. */
  lemma TryFailsOnlyIfDeallocating(k: nat, n: nat, cls: nat, sched: seq<Move>, t: nat)
    requires k >= 2
    requires var s := Reached(k, n, cls, sched);
      t < |s.pcs| && (s.pcs[t] == Ret(TryHome(false)) || s.pcs[t] == Ret(TryLost))
    ensures IsDeallocating(Reached(k, n, cls, sched).word)
  {
    ReachedOk(k, n, cls, sched);
    assert LocalOk(k, Reached(k, n, cls, sched), t);
  }

  // ------------------------------------------------------------------ progress

  predicate Waiting(pc: Pc) {
    pc == Ret(TryWait) || pc == Rel(RelWait) || pc == Cnt(CntWait) || (pc.Ret? && pc.r.RetWait?)
  }

  /** Whoever is inside a call moves, or waits for a lock whose holder moves. */
  lemma SomeoneMoves(k: nat, n: nat, cls: nat, sched: seq<Move>, t: nat)
    requires k >= 2
    requires var s := Reached(k, n, cls, sched); t < |s.pcs| && !s.pcs[t].Idle? && s.pcs[t] != Ret(TryLost)
    ensures var s := Reached(k, n, cls, sched);
      || Fire(k, s, t, Go).pcs[t] != s.pcs[t]
      || (Waiting(s.pcs[t]) && s.lock.Some? && s.lock.value < |s.pcs|
          && Fire(k, s, s.lock.value, Go).pcs[s.lock.value] != s.pcs[s.lock.value])
  {
    var s := Reached(k, n, cls, sched);
    ReachedOk(k, n, cls, sched);
    if s.lock.Some? { InsideMoves(k, s, s.lock.value); }
    if !Waiting(s.pcs[t]) { InsideMoves(k, s, t); }
  }

  lemma InsideMoves(k: nat, s: Machine, t: nat)
    requires k >= 2 && t < |s.pcs| && !s.pcs[t].Idle? && s.pcs[t] != Ret(TryLost) && !Waiting(s.pcs[t])
    ensures Fire(k, s, t, Go).pcs[t] != s.pcs[t]
  {
    match s.pcs[t]
    case Ret(r) => RetMoves(k, s, t, r);
    case Rel(l) => RelMoves(k, s, t, l);
    case Cnt(n) =>
    case Flg(f, g) => FlagMoves(k, s, t, f, g);
  }

  lemma RetMoves(k: nat, s: Machine, t: nat, r: RetPc)
    requires k >= 2 && t < |s.pcs| && s.pcs[t] == Ret(r) && r != TryLost && !Waiting(s.pcs[t])
    ensures Fire(k, s, t, Go).pcs[t] != s.pcs[t]
  {}

  lemma RelMoves(k: nat, s: Machine, t: nat, l: RelPc)
    requires k >= 2 && t < |s.pcs| && s.pcs[t] == Rel(l) && !Waiting(s.pcs[t])
    ensures Fire(k, s, t, Go).pcs[t] != s.pcs[t]
  {}

  lemma FlagMoves(k: nat, s: Machine, t: nat, f: Flag, g: FlagPc)
    requires k >= 2 && t < |s.pcs| && s.pcs[t] == Flg(f, g)
    ensures Fire(k, s, t, Go).pcs[t] != s.pcs[t]
  {}

  // ------------------------------------------------------------------ the weak load's lock

  /** t goes on with the call it is in and starts no other. */
  predicate OneCall(sched: seq<Move>, t: nat) {
    forall i :: 0 <= i < |sched| && sched[i].thread == t ==> sched[i].choice.Go? || sched[i].choice.Fail?
  }

  /** t has just called rootTryRetain, holding the table lock for it. */
  predicate TryEntered(s: Machine, t: nat) {
    t < |s.pcs| && s.pcs[t] == Ret(RetLoad(false, true))
  }

  /** t's caller no longer has the lock it took. */
  predicate LockLost(s: Machine, t: nat) {
    t < |s.pcs| && s.pcs[t] == Ret(TryLost)
  }

  /** What keeps a weak load from giving away its caller's lock. */
  predicate TryIsSafe(w: Isa) { w.hasSide || IsDeallocating(w) }

  ghost predicate TrySafely(s: Machine, t: nat) {
    && t < |s.pcs|
    && match s.pcs[t]
       case Idle => true
       case Ret(RetLoad(full, true)) => s.word.hasSide || (!full && IsDeallocating(s.word))
       case Ret(RetTop(full, true, seen, locked)) =>
         (seen.hasSide && s.word.hasSide) || (!locked && IsDeallocating(seen))
       case Ret(RetStore(full, true, seen, locked)) => s.word.hasSide
       case Ret(RetAdd(true)) => true
       case Ret(TryHome(_)) => true
       case _ => false
  }

  lemma TrySafeStep(k: nat, s: Machine, t: nat, u: nat, c: Choice)
    requires k >= 2 && Inv(k, s) && TrySafely(s, t)
    requires u == t ==> c.Go? || c.Fail?
    ensures TrySafely(Fire(k, s, u, c), t)
  {
    assert LocalOk(k, s, t);
    StepKeepsInv(k, s, u, c);
    if u == t && s.pcs[t].Ret? {
      TrySafeOwnStep(k, s, t, s.pcs[t].r, c);
    }
  }

  lemma TrySafeOwnStep(k: nat, s: Machine, t: nat, r: RetPc, c: Choice)
    requires k >= 2 && TrySafely(s, t) && s.pcs[t] == Ret(r)
    ensures TrySafely(FireRetain(k, s, t, r, c), t)
  {}

  lemma {:induction false} TrySafeRun(k: nat, s: Machine, t: nat, sched: seq<Move>)
    requires k >= 2 && Inv(k, s) && TrySafely(s, t) && OneCall(sched, t)
    ensures TrySafely(Run(k, s, sched), t)
    decreases |sched|
  {
    if sched != [] {
      var m := sched[0];
      TrySafeStep(k, s, t, m.thread, m.choice);
      StepKeepsInv(k, s, m.thread, m.choice);
      TrySafeRun(k, Fire(k, s, m.thread, m.choice), t, sched[1..]);
    }
  }

  lemma {:induction false} RunAppend(k: nat, s: Machine, a: seq<Move>, b: seq<Move>)
    requires k > 0
    ensures Run(k, s, a + b) == Run(k, Run(k, s, a), b)
    decreases |a|
  {
    if a == [] {
      assert a + b == b;
    } else {
      assert (a + b)[0] == a[0] && (a + b)[1..] == a[1..] + b;
      RunAppend(k, Fire(k, s, a[0].thread, a[0].choice), a[1..], b);
    }
  }

  function By(t: nat, c: Choice): Move { Move(t, c) }

  /** An idle thread's undisturbed retain, short of overflow. */
  lemma QuietRetain(k: nat, s: Machine, u: nat) returns (sched: seq<Move>)
    requires k >= 2 && u < |s.pcs| && s.pcs[u].Idle? && s.word.extra > 0 && s.word.extra + 1 < Full(k)
    ensures forall i :: 0 <= i < |sched| ==> sched[i].thread == u
    ensures Run(k, s, sched) == s.(word := s.word.(extra := s.word.extra + 1), retains := s.retains + 1)
  {
    var s1 := Fire(k, s, u, Retain);
    var s2 := Fire(k, s1, u, Go);
    var s3 := Fire(k, s2, u, Go);
    var s4 := Fire(k, s3, u, Go);
    assert s3.pcs[u] == Ret(RetStore(false, false, s.word, false));
    assert s4.pcs == s.pcs;
    assert s4 == s.(word := s.word.(extra := s.word.extra + 1), retains := s.retains + 1);
    sched := [By(u, Retain), By(u, Go), By(u, Go), By(u, Go)];
    FourMoves(k, s, sched);
  }

  lemma FourMoves(k: nat, s: Machine, m: seq<Move>)
    requires k > 0 && |m| == 4
    ensures Run(k, s, m) ==
      (var s1 := Fire(k, s, m[0].thread, m[0].choice);
       var s2 := Fire(k, s1, m[1].thread, m[1].choice);
       var s3 := Fire(k, s2, m[2].thread, m[2].choice);
       Fire(k, s3, m[3].thread, m[3].choice))
  {
    var s1 := Fire(k, s, m[0].thread, m[0].choice);
    TwoMoves(k, Fire(k, s1, m[1].thread, m[1].choice), m[2..]);
    assert m[1..][1..] == m[2..];
    assert Run(k, s, m) == Run(k, s1, m[1..]);
  }

  lemma TwoMoves(k: nat, s: Machine, m: seq<Move>)
    requires k > 0 && |m| == 2
    ensures Run(k, s, m) ==
      (var s1 := Fire(k, s, m[0].thread, m[0].choice);
       Fire(k, s1, m[1].thread, m[1].choice))
  {
    var s1 := Fire(k, s, m[0].thread, m[0].choice);
    var rest := m[1..];
    assert rest[0] == m[1] && rest[1..] == [];
    assert Run(k, s, m) == Run(k, s1, rest);
    assert Run(k, s1, rest) == Run(k, Fire(k, s1, m[1].thread, m[1].choice), []);
  }

  /** An idle thread's undisturbed release that needs nothing from the table. */
  lemma QuietRelease(k: nat, s: Machine, u: nat) returns (sched: seq<Move>, s': Machine)
    requires k >= 2 && u < |s.pcs| && s.pcs[u].Idle? && s.word.extra > 0
    ensures forall i :: 0 <= i < |sched| ==> sched[i].thread == u
    ensures s' == Run(k, s, sched)
    ensures s'.word == s.word.(extra := s.word.extra - 1) && s'.pcs == s.pcs && s'.lock == s.lock
  {
    var s1 := Fire(k, s, u, Release);
    var s2 := Fire(k, s1, u, Go);
    var s3 := Fire(k, s2, u, Go);
    var s4 := Fire(k, s3, u, Go);
    s' := Fire(k, s4, u, Go);
    assert s'.pcs == s.pcs;
    var four := [By(u, Release), By(u, Go), By(u, Go), By(u, Go)];
    FourMoves(k, s, four);
    RunAppend(k, s, four, [By(u, Go)]);
    sched := four + [By(u, Go)];
  }

  /** u retains until extra_rc is full. */
  lemma {:induction false} FillUp(k: nat, s: Machine, u: nat) returns (sched: seq<Move>, s': Machine)
    requires k >= 2 && u < |s.pcs| && s.pcs[u].Idle? && 0 < s.word.extra < Full(k)
    ensures forall i :: 0 <= i < |sched| ==> sched[i].thread == u
    ensures s' == Run(k, s, sched)
    ensures s'.word == s.word.(extra := Full(k) - 1) && s'.pcs == s.pcs && s'.lock == s.lock
    decreases Full(k) - s.word.extra
  {
    if s.word.extra + 1 == Full(k) {
      return [], s;
    }
    var first := QuietRetain(k, s, u);
    var rest;
    rest, s' := FillUp(k, Run(k, s, first), u);
    RunAppend(k, s, first, rest);
    sched := first + rest;
  }

  /** u releases until extra_rc is zero. */
  lemma {:induction false} Drain(k: nat, s: Machine, u: nat) returns (sched: seq<Move>, s': Machine)
    requires k >= 2 && u < |s.pcs| && s.pcs[u].Idle?
    ensures forall i :: 0 <= i < |sched| ==> sched[i].thread == u
    ensures s' == Run(k, s, sched)
    ensures s'.word == s.word.(extra := 0) && s'.pcs == s.pcs && s'.lock == s.lock
    decreases s.word.extra
  {
    if s.word.extra == 0 {
      return [], s;
    }
    var first, s1 := QuietRelease(k, s, u);
    var rest;
    rest, s' := Drain(k, s1, u);
    RunAppend(k, s, first, rest);
    sched := first + rest;
  }

  /**
   * A weak load that overflows extra_rc, loses its store, and then finds the object deallocating,
   * gives back the lock its caller took.
   */
  lemma TryCanLoseLock(k: nat, s: Machine, t: nat, u: nat) returns (sched: seq<Move>)
    requires k >= 2 && Inv(k, s) && TryEntered(s, t) && !TryIsSafe(s.word)
    requires u < |s.pcs| && u != t && s.pcs[u].Idle?
    ensures OneCall(sched, t) && LockLost(Run(k, s, sched), t)
  {
    var fill, s1 := FillUp(k, s, u);
    var tries := [By(t, Go), By(t, Go), By(t, Go), By(t, Go)];
    FourMoves(k, s1, tries);
    var s2 := Run(k, s1, tries);
    assert s2 == Goto(s1, t, Ret(RetStore(true, true, s1.word, true))) by { TriesToStore(k, s1, t); }
    var drain, s3 := Drain(k, s2, u);
    HalfFull(k);
    assert s3.word != s1.word;
    var s4 := Fire(k, s3, t, Fail);
    assert s4 == Goto(s3, t, Ret(RetTop(true, true, s3.word, true)));
    var s5 := Fire(k, s4, t, Go);
    var ends := [By(t, Fail), By(t, Go)];
    TwoMoves(k, s3, ends);
    RunAppend(k, s2, drain, ends);
    RunAppend(k, s1, tries, drain + ends);
    RunAppend(k, s, fill, tries + (drain + ends));
    sched := fill + (tries + (drain + ends));
  }

  lemma TriesToStore(k: nat, s: Machine, t: nat)
    requires k >= 2 && TryEntered(s, t) && s.word.extra == Full(k) - 1 && !IsDeallocating(s.word)
    ensures var s1 := Fire(k, s, t, Go);
      var s2 := Fire(k, s1, t, Go);
      var s3 := Fire(k, s2, t, Go);
      Fire(k, s3, t, Go) == Goto(s, t, Ret(RetStore(true, true, s.word, true)))
  {}

  /**
   * Whatever other threads do, if any: called for an object that uses the side table or is
   * deallocating, rootTryRetain leaves its caller holding the table lock.
   */
  lemma TryKeepsLockIfSafe(k: nat, n: nat, cls: nat, before: seq<Move>, t: nat, sched: seq<Move>)
    requires k >= 2 && OneCall(sched, t)
    requires var s := Reached(k, n, cls, before); TryEntered(s, t) && TryIsSafe(s.word)
    ensures !LockLost(Run(k, Reached(k, n, cls, before), sched), t)
  {
    var s := Reached(k, n, cls, before);
    ReachedOk(k, n, cls, before);
    assert LocalOk(k, s, t);
    TrySafeRun(k, s, t, sched);
  }

  /**
   * With another thread about, rootTryRetain is sure to leave its caller holding the table lock
   * exactly when the object already uses the side table, or is already deallocating, at the call.
   */
  lemma TryKeepsLockIff(k: nat, n: nat, cls: nat, before: seq<Move>, t: nat, u: nat)
    requires k >= 2
    requires var s := Reached(k, n, cls, before); TryEntered(s, t) && u < |s.pcs| && u != t && s.pcs[u].Idle?
    ensures var s := Reached(k, n, cls, before);
      (forall sched :: OneCall(sched, t) ==> !LockLost(Run(k, s, sched), t)) <==> TryIsSafe(s.word)
  {
    var s := Reached(k, n, cls, before);
    ReachedOk(k, n, cls, before);
    if TryIsSafe(s.word) {
      forall sched | OneCall(sched, t)
        ensures !LockLost(Run(k, s, sched), t)
      {
        TryKeepsLockIfSafe(k, n, cls, before, t, sched);
      }
    } else {
      var sched := TryCanLoseLock(k, s, t, u);
      assert OneCall(sched, t);
    }
  }

  /** A new object's first weak load is at risk: with two threads, a schedule in which its caller loses the lock. */
  lemma LockIsLost(k: nat, cls: nat) returns (sched: seq<Move>)
    requires k >= 2
    ensures |sched| >= 2 && sched[..2] == [Move(0, TryRetain), Move(0, Go)] && OneCall(sched[1..], 0)
    ensures var s := Reached(k, 2, cls, sched[..2]);
      |s.pcs| == 2 && TryEntered(s, 0) && !TryIsSafe(s.word) && s.pcs[1].Idle?
    ensures LockLost(Reached(k, 2, cls, sched), 0)
  {
    var enter := [Move(0, TryRetain), Move(0, Go)];
    var s := Reached(k, 2, cls, enter);
    TwoMoves(k, Init(2, cls), enter);
    assert Fire(k, Init(2, cls), 0, TryRetain).pcs == [Ret(TryWait), Idle];
    assert s.pcs == [Ret(RetLoad(false, true)), Idle] && s.word == Init(2, cls).word;
    ReachedOk(k, 2, cls, enter);
    var rest := TryCanLoseLock(k, s, 0, 1);
    RunAppend(k, Init(2, cls), enter, rest);
    sched := enter + rest;
    assert sched[..2] == enter && sched[1..] == [Move(0, Go)] + rest;
  }
}

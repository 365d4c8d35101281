/** Calls of the split reference count that no other thread disturbs: that they return, and what they do. */
module SplitRefcountAlone {
  import opened Options
  import opened SplitRefcount
  import opened SplitRefcountProofs
  import opened SplitRefcountTheorems

  /** How many steps a call needs at most, if nobody else moves. */
  function Rank(w: Isa, pc: Pc): nat {
    match pc
    case Idle => 0
    case Ret(r) => RetainRank(w, r)
    case Rel(l) => ReleaseRank(w, l)
    case Cnt(n) =>
      if n.CntWait? then 5 else if n.CntLoad? then 4 else if n.CntRead? then 3 else if n.CntUnlock? then 2 else 1
    case Flg(_, g) => if g.FlagDone? then 1 else if g.FlagStore? && g.seen == w then 2 else 3
  }

  function RetainRank(w: Isa, r: RetPc): nat {
    match r
    case RetLoad(full, _) => if full then 6 else 8
    case RetTop(full, _, seen, _) => (if full then 5 else 7) + if seen == w then 0 else if full then 3 else 2
    case RetWait(seen) => if seen == w then 4 else 7
    case RetStore(full, _, seen, _) => if seen == w then 3 else if full then 6 else 8
    case RetAdd(_) => 2
    case RetUnlock => 1
    case TryWait => 9
    case TryHome(_) => 1
    case TryLost => 0
  }

  function ReleaseRank(w: Isa, l: RelPc): nat {
    match l
    case RelLoad(full) => if full then 9 else 11
    case RelTop(full, seen, locked) =>
      if !full then (if seen == w then 10 else 12)
      else if locked then (if seen == w then 5 else 11)
      else if seen == w then 8 else 10
    case RelStore(full, seen, locked) => if seen == w then 2 else if !full then 11 else if locked then 6 else 9
    case RelWait => 7
    case RelReload => 6
    case RelSub(seen) => if seen == w then 4 else 10
    case RelStore1(seen, _) => if seen == w then 3 else 9
    case RelStore2(_, _) => 8
    case RelPutBack(_) => 7
    case RelClear(_) => 2
    case RelEmpty => 2
    case RelReturn(_, _) => 1
  }

  /** t can go on: nobody else has the lock. */
  predicate Unhindered(s: Machine, t: nat) { s.lock.None? || s.lock == Some(t) }

  predicate Nearer(s: Machine, s': Machine, t: nat) {
    t < |s.pcs| == |s'.pcs| && Rank(s'.word, s'.pcs[t]) < Rank(s.word, s.pcs[t])
  }

  lemma RetainNearer(k: nat, s: Machine, t: nat, r: RetPc)
    requires k >= 2 && t < |s.pcs| && s.pcs[t] == Ret(r) && RetOk(k, s, r) && r != TryLost
    requires (r.RetWait? || r.TryWait?) ==> s.lock.None?
    ensures Nearer(s, FireRetain(k, s, t, r, Go), t)
  {}

  lemma ReleaseNearer(k: nat, s: Machine, t: nat, l: RelPc)
    requires k >= 2 && t < |s.pcs| && s.pcs[t] == Rel(l) && RelOk(k, s, t, l)
    requires l.RelWait? ==> s.lock.None?
    requires l.RelSub? ==> s.table > 0
    ensures Nearer(s, FireRelease(k, s, t, l, Go), t)
  {}

  lemma AloneStep(k: nat, s: Machine, t: nat)
    requires k >= 2 && Inv(k, s) && t < |s.pcs| && !s.pcs[t].Idle? && s.pcs[t] != Ret(TryLost) && Unhindered(s, t)
    ensures var s' := Fire(k, s, t, Go); Inv(k, s') && Nearer(s, s', t) && Unhindered(s', t)
  {
    assert LocalOk(k, s, t);
    StepKeepsInv(k, s, t, Go);
    match s.pcs[t]
    case Ret(r) => RetainNearer(k, s, t, r);
    case Rel(l) => ReleaseNearer(k, s, t, l);
    case Cnt(n) =>
    case Flg(f, g) =>
  }

  /** n steps of t and of nobody else. */
  function Alone(t: nat, n: nat): seq<Move> { if n == 0 then [] else [Move(t, Go)] + Alone(t, n - 1) }

  /** A thread that is between calls, or whose caller has lost its lock, stays there. */
  lemma Parked(k: nat, s: Machine, t: nat)
    requires k > 0 && t < |s.pcs| && (s.pcs[t].Idle? || s.pcs[t] == Ret(TryLost))
    ensures Fire(k, s, t, Go) == s
  {}

  lemma {:induction false} AloneRun(k: nat, s: Machine, t: nat, n: nat)
    requires k >= 2 && Inv(k, s) && t < |s.pcs| && Unhindered(s, t) && Rank(s.word, s.pcs[t]) <= n
    ensures var s' := Run(k, s, Alone(t, n)); t < |s'.pcs| && (s'.pcs[t].Idle? || s'.pcs[t] == Ret(TryLost))
    decreases n
  {
    if n > 0 {
      AloneFirst(k, s, t, n);
      if s.pcs[t].Idle? || s.pcs[t] == Ret(TryLost) { Parked(k, s, t); } else { AloneStep(k, s, t); }
      AloneRun(k, Fire(k, s, t, Go), t, n - 1);
    }
  }

  lemma AloneFirst(k: nat, s: Machine, t: nat, n: nat)
    requires k > 0 && n > 0
    ensures Run(k, s, Alone(t, n)) == Run(k, Fire(k, s, t, Go), Alone(t, n - 1))
  {
    assert Alone(t, n)[0] == Move(t, Go) && Alone(t, n)[1..] == Alone(t, n - 1);
  }

  /** Left alone, any call returns within twelve steps, unless another thread has the lock. */
  lemma FinishesAlone(k: nat, n: nat, cls: nat, sched: seq<Move>, t: nat)
    requires k >= 2
    requires var s := Reached(k, n, cls, sched); t < |s.pcs| && Unhindered(s, t)
    ensures var s' := Run(k, Reached(k, n, cls, sched), Alone(t, 12));
      t < |s'.pcs| && (s'.pcs[t].Idle? || s'.pcs[t] == Ret(TryLost))
  {
    ReachedOk(k, n, cls, sched);
    AloneRun(k, Reached(k, n, cls, sched), t, 12);
  }

  // ------------------------------------------------------------------ and what exactly they do

  /** The state after t calls c and is left alone. */
  function After(k: nat, s: Machine, t: nat, c: Choice): Machine
    requires k > 0
  {
    Run(k, Fire(k, s, t, c), Alone(t, 12))
  }

  lemma {:induction false} StaysParked(k: nat, s: Machine, t: nat, n: nat)
    requires k > 0 && t < |s.pcs| && s.pcs[t].Idle?
    ensures Run(k, s, Alone(t, n)) == s
  {
    if n > 0 {
      AloneFirst(k, s, t, n);
      Parked(k, s, t);
      StaysParked(k, s, t, n - 1);
    }
  }

  /** A step that only moves t on. */
  lemma Onward(k: nat, s: Machine, t: nat, pc: Pc, pc': Pc, n: nat)
    requires k > 0 && t < |s.pcs| && n > 0 && Fire(k, Goto(s, t, pc), t, Go) == Goto(Goto(s, t, pc), t, pc')
    ensures Run(k, Goto(s, t, pc), Alone(t, n)) == Run(k, Goto(s, t, pc'), Alone(t, n - 1))
  {
    assert s.pcs[t := pc][t := pc'] == s.pcs[t := pc'];
    AloneFirst(k, Goto(s, t, pc), t, n);
  }

  /** A step that takes t home. */
  lemma Homeward(k: nat, s: Machine, t: nat, pc: Pc, n: nat, s': Machine)
    requires k > 0 && t < |s.pcs| && s.pcs[t].Idle? && n > 0
    requires Fire(k, Goto(s, t, pc), t, Go) == Goto(s'.(pcs := s.pcs[t := pc]), t, Idle) && s'.pcs == s.pcs
    ensures Run(k, Goto(s, t, pc), Alone(t, n)) == s'
  {
    assert s.pcs[t := pc][t := Idle] == s.pcs;
    AloneFirst(k, Goto(s, t, pc), t, n);
    StaysParked(k, s', t, n - 1);
  }

  /** What a retain does when no other thread moves. */
  function Retained(k: nat, s: Machine): Machine
    requires k > 0
  {
    if IsDeallocating(s.word) then s
    else if s.word.extra + 1 < Full(k) then
      s.(word := s.word.(extra := s.word.extra + 1), retains := s.retains + 1)
    else
      s.(word := s.word.(extra := Half(k), hasSide := true), table := s.table + Half(k), retains := s.retains + 1)
  }

  lemma ShortRetain(k: nat, s: Machine, t: nat)
    requires k >= 2 && t < |s.pcs| && s.pcs[t].Idle? && s.word.extra + 1 < Full(k)
    ensures After(k, s, t, Retain) == Retained(k, s)
  {
    var load, top := RetLoad(false, false), RetTop(false, false, s.word, false);
    var store := RetStore(false, false, s.word, false);
    Onward(k, s, t, Ret(load), Ret(top), 12);
    if IsDeallocating(s.word) {
      Homeward(k, s, t, Ret(top), 11, s);
    } else {
      Onward(k, s, t, Ret(top), Ret(store), 11);
      Homeward(k, s, t, Ret(store), 10, Retained(k, s));
    }
  }

  lemma LongRetain(k: nat, s: Machine, t: nat)
    requires k >= 2 && t < |s.pcs| && s.pcs[t].Idle? && s.lock.None? && s.word.extra + 1 == Full(k)
    ensures After(k, s, t, Retain) == Retained(k, s)
  {
    HalfFull(k);
    var load, top := RetLoad(false, false), RetTop(false, false, s.word, false);
    var fullLoad, fullTop := RetLoad(true, false), RetTop(true, false, s.word, false);
    var store := RetStore(true, false, s.word, true);
    Onward(k, s, t, Ret(load), Ret(top), 12);
    Onward(k, s, t, Ret(top), Ret(fullLoad), 11);
    Onward(k, s, t, Ret(fullLoad), Ret(fullTop), 10);
    Onward(k, s, t, Ret(fullTop), Ret(RetWait(s.word)), 9);
    var h := s.(lock := Some(t));
    AloneFirst(k, Goto(s, t, Ret(RetWait(s.word))), t, 8);
    assert Fire(k, Goto(s, t, Ret(RetWait(s.word))), t, Go) == Goto(h, t, Ret(store)) by {
      assert s.pcs[t := Ret(RetWait(s.word))][t := Ret(store)] == s.pcs[t := Ret(store)];
    }
    LongRetainStores(k, s, t, 7);
  }

  lemma LongRetainStores(k: nat, s: Machine, t: nat, n: nat)
    requires k >= 2 && t < |s.pcs| && s.pcs[t].Idle? && s.lock.None? && s.word.extra + 1 == Full(k) && n >= 3
    requires !IsDeallocating(s.word)
    ensures Run(k, Goto(s.(lock := Some(t)), t, Ret(RetStore(true, false, s.word, true))), Alone(t, n))
         == Retained(k, s)
  {
    var store := RetStore(true, false, s.word, true);
    var h := s.(lock := Some(t));
    var w := h.(word := s.word.(extra := Half(k), hasSide := true), retains := s.retains + 1);
    AloneFirst(k, Goto(h, t, Ret(store)), t, n);
    assert s.pcs[t := Ret(store)][t := Ret(RetAdd(false))] == s.pcs[t := Ret(RetAdd(false))];
    assert Fire(k, Goto(h, t, Ret(store)), t, Go) == Goto(w, t, Ret(RetAdd(false)));
    var x := w.(table := s.table + Half(k));
    AloneFirst(k, Goto(w, t, Ret(RetAdd(false))), t, n - 1);
    assert s.pcs[t := Ret(RetAdd(false))][t := Ret(RetUnlock)] == s.pcs[t := Ret(RetUnlock)];
    assert Fire(k, Goto(w, t, Ret(RetAdd(false))), t, Go) == Goto(x, t, Ret(RetUnlock));
    Homeward(k, x, t, Ret(RetUnlock), n - 2, Retained(k, s));
  }

  /** Undisturbed, a retain adds one to the word; one that overflows it leaves half there and puts half in the table. */
  lemma RetainAlone(k: nat, n: nat, cls: nat, sched: seq<Move>, t: nat)
    requires k >= 2
    requires var s := Reached(k, n, cls, sched); t < |s.pcs| && s.pcs[t].Idle? && s.lock.None?
    ensures var s := Reached(k, n, cls, sched); After(k, s, t, Retain) == Retained(k, s)
  {
    var s := Reached(k, n, cls, sched);
    ReachedOk(k, n, cls, sched);
    if s.word.extra + 1 < Full(k) { ShortRetain(k, s, t); } else { LongRetain(k, s, t); }
  }

  /** A weak load, undisturbed, does the same under the lock. */
  lemma TryTops(k: nat, s: Machine, t: nat, n: nat)
    requires k >= 2 && t < |s.pcs| && s.pcs[t].Idle? && s.lock.None? && s.word.extra < Full(k) && n >= 7
    ensures Run(k, Goto(s.(lock := Some(t)), t, Ret(RetTop(false, true, s.word, false))), Alone(t, n)) == Retained(k, s)
  {
    var h := s.(lock := Some(t));
    var top, store := RetTop(false, true, s.word, false), RetStore(false, true, s.word, false);
    if IsDeallocating(s.word) {
      Onward(k, h, t, Ret(top), Ret(TryHome(false)), n);
      Homeward(k, h, t, Ret(TryHome(false)), n - 1, s);
    } else if s.word.extra + 1 < Full(k) {
      Onward(k, h, t, Ret(top), Ret(store), n);
      var w := Retained(k, s).(lock := Some(t));
      assert s.pcs[t := Ret(store)][t := Ret(TryHome(true))] == s.pcs[t := Ret(TryHome(true))];
      AloneFirst(k, Goto(h, t, Ret(store)), t, n - 1);
      Homeward(k, w, t, Ret(TryHome(true)), n - 2, Retained(k, s));
    } else {
      var fullTop := RetTop(true, true, s.word, false);
      Onward(k, h, t, Ret(top), Ret(RetLoad(true, true)), n);
      Onward(k, h, t, Ret(RetLoad(true, true)), Ret(fullTop), n - 1);
      Onward(k, h, t, Ret(fullTop), Ret(RetStore(true, true, s.word, true)), n - 2);
      TryStores(k, s, t, n - 3);
    }
  }

  lemma TryStores(k: nat, s: Machine, t: nat, n: nat)
    requires k >= 2 && t < |s.pcs| && s.pcs[t].Idle? && s.lock.None? && s.word.extra + 1 == Full(k) && n >= 3
    requires !IsDeallocating(s.word)
    ensures Run(k, Goto(s.(lock := Some(t)), t, Ret(RetStore(true, true, s.word, true))), Alone(t, n)) == Retained(k, s)
  {
    var store := RetStore(true, true, s.word, true);
    var h := s.(lock := Some(t));
    var w := h.(word := s.word.(extra := Half(k), hasSide := true), retains := s.retains + 1);
    AloneFirst(k, Goto(h, t, Ret(store)), t, n);
    assert s.pcs[t := Ret(store)][t := Ret(RetAdd(true))] == s.pcs[t := Ret(RetAdd(true))];
    assert Fire(k, Goto(h, t, Ret(store)), t, Go) == Goto(w, t, Ret(RetAdd(true)));
    var x := w.(table := s.table + Half(k));
    AloneFirst(k, Goto(w, t, Ret(RetAdd(true))), t, n - 1);
    assert s.pcs[t := Ret(RetAdd(true))][t := Ret(TryHome(true))] == s.pcs[t := Ret(TryHome(true))];
    assert Fire(k, Goto(w, t, Ret(RetAdd(true))), t, Go) == Goto(x, t, Ret(TryHome(true)));
    Homeward(k, x, t, Ret(TryHome(true)), n - 2, Retained(k, s));
  }

  lemma TryAlone(k: nat, n: nat, cls: nat, sched: seq<Move>, t: nat)
    requires k >= 2
    requires var s := Reached(k, n, cls, sched); t < |s.pcs| && s.pcs[t].Idle? && s.lock.None?
    ensures var s := Reached(k, n, cls, sched); After(k, s, t, TryRetain) == Retained(k, s)
  {
    var s := Reached(k, n, cls, sched);
    ReachedOk(k, n, cls, sched);
    var h := s.(lock := Some(t));
    AloneFirst(k, Goto(s, t, Ret(TryWait)), t, 12);
    assert s.pcs[t := Ret(TryWait)][t := Ret(RetLoad(false, true))] == s.pcs[t := Ret(RetLoad(false, true))];
    assert Fire(k, Goto(s, t, Ret(TryWait)), t, Go) == Goto(h, t, Ret(RetLoad(false, true)));
    Onward(k, h, t, Ret(RetLoad(false, true)), Ret(RetTop(false, true, s.word, false)), 11);
    TryTops(k, s, t, 10);
  }

  /** What a release by t does when no other thread moves. */
  function Released(k: nat, s: Machine, t: nat): Machine
    requires k > 0
  {
    if IsDeallocating(s.word) then s
    else if s.word.extra > 0 then
      var next := s.word.(extra := s.word.extra - 1);
      var won := IsDeallocating(next);
      s.(word := next, releases := s.releases + 1, winner := if won then Some(t) else s.winner,
         trueReturns := s.trueReturns + if won then 1 else 0)
    else
      var left := if s.table < Half(k) then 0 else s.table - Half(k);
      s.(word := s.word.(extra := Half(k) - 1, hasSide := left > 0), table := left, releases := s.releases + 1)
  }

  lemma ShortRelease(k: nat, s: Machine, t: nat)
    requires k >= 2 && t < |s.pcs| && s.pcs[t].Idle? && (s.word.extra > 0 || !s.word.hasSide)
    ensures After(k, s, t, Release) == Released(k, s, t)
  {
    var load, top, store := RelLoad(false), RelTop(false, s.word, false), RelStore(false, s.word, false);
    Onward(k, s, t, Rel(load), Rel(top), 12);
    if IsDeallocating(s.word) {
      Homeward(k, s, t, Rel(top), 11, s);
    } else {
      Onward(k, s, t, Rel(top), Rel(store), 11);
      var r := Released(k, s, t);
      var w := r.(trueReturns := s.trueReturns);
      var back := RelReturn(false, IsDeallocating(w.word));
      AloneFirst(k, Goto(s, t, Rel(store)), t, 10);
      assert s.pcs[t := Rel(store)][t := Rel(back)] == s.pcs[t := Rel(back)];
      assert Fire(k, Goto(s, t, Rel(store)), t, Go) == Goto(w, t, Rel(back));
      Homeward(k, w, t, Rel(back), 9, r);
    }
  }

  /** A release of an empty word goes round the full variant and waits for the lock. */
  lemma LongReleaseWaits(k: nat, s: Machine, t: nat)
    requires k >= 2 && t < |s.pcs| && s.pcs[t].Idle? && s.word.extra == 0 && s.word.hasSide
    ensures After(k, s, t, Release) == Run(k, Goto(s, t, Rel(RelWait)), Alone(t, 8))
  {
    var load, top := RelLoad(false), RelTop(false, s.word, false);
    var fullLoad, fullTop := RelLoad(true), RelTop(true, s.word, false);
    Onward(k, s, t, Rel(load), Rel(top), 12);
    Onward(k, s, t, Rel(top), Rel(fullLoad), 11);
    Onward(k, s, t, Rel(fullLoad), Rel(fullTop), 10);
    Onward(k, s, t, Rel(fullTop), Rel(RelWait), 9);
  }

  /** And then loads again and borrows. */
  lemma LongRelease(k: nat, s: Machine, t: nat)
    requires k >= 2 && t < |s.pcs| && s.pcs[t].Idle? && s.lock.None? && s.word.extra == 0 && s.word.hasSide
    requires s.table >= Half(k)
    ensures After(k, s, t, Release) == Released(k, s, t)
  {
    var lockedTop := RelTop(true, s.word, true);
    var h := s.(lock := Some(t));
    LongReleaseWaits(k, s, t);
    AloneFirst(k, Goto(s, t, Rel(RelWait)), t, 8);
    assert s.pcs[t := Rel(RelWait)][t := Rel(RelReload)] == s.pcs[t := Rel(RelReload)];
    assert Fire(k, Goto(s, t, Rel(RelWait)), t, Go) == Goto(h, t, Rel(RelReload));
    Onward(k, h, t, Rel(RelReload), Rel(lockedTop), 7);
    Onward(k, h, t, Rel(lockedTop), Rel(RelSub(s.word)), 6);
    LongReleaseBorrows(k, s, t, 5);
  }

  lemma LongReleaseBorrows(k: nat, s: Machine, t: nat, n: nat)
    requires k >= 2 && t < |s.pcs| && s.pcs[t].Idle? && s.lock.None? && s.word.extra == 0 && s.word.hasSide
    requires s.table >= Half(k) && n >= 4
    ensures Run(k, Goto(s.(lock := Some(t)), t, Rel(RelSub(s.word))), Alone(t, n)) == Released(k, s, t)
  {
    var h, r := s.(lock := Some(t)), Released(k, s, t);
    var b := Borrow(Half(k), s.table - Half(k));
    HalfFull(k);
    AloneFirst(k, Goto(h, t, Rel(RelSub(s.word))), t, n);
    assert s.pcs[t := Rel(RelSub(s.word))][t := Rel(RelStore1(s.word, b))] == s.pcs[t := Rel(RelStore1(s.word, b))];
    var x := h.(table := b.remaining);
    assert Fire(k, Goto(h, t, Rel(RelSub(s.word))), t, Go) == Goto(x, t, Rel(RelStore1(s.word, b)));
    AloneFirst(k, Goto(x, t, Rel(RelStore1(s.word, b))), t, n - 1);
    var y := r.(lock := Some(t));
    var back := RelReturn(true, false);
    if b.remaining == 0 {
      assert s.pcs[t := Rel(RelStore1(s.word, b))][t := Rel(RelClear(false))] == s.pcs[t := Rel(RelClear(false))];
      assert Fire(k, Goto(x, t, Rel(RelStore1(s.word, b))), t, Go) == Goto(y, t, Rel(RelClear(false)));
      Onward(k, y, t, Rel(RelClear(false)), Rel(back), n - 2);
      Homeward(k, y, t, Rel(back), n - 3, r);
    } else {
      assert s.pcs[t := Rel(RelStore1(s.word, b))][t := Rel(back)] == s.pcs[t := Rel(back)];
      assert Fire(k, Goto(x, t, Rel(RelStore1(s.word, b))), t, Go) == Goto(y, t, Rel(back));
      Homeward(k, y, t, Rel(back), n - 2, r);
    }
  }

  /** Undisturbed, a release takes one from the word; from an empty one, it brings half over from the table first. */
  lemma ReleaseAlone(k: nat, n: nat, cls: nat, sched: seq<Move>, t: nat)
    requires k >= 2
    requires var s := Reached(k, n, cls, sched); t < |s.pcs| && s.pcs[t].Idle? && s.lock.None?
    ensures var s := Reached(k, n, cls, sched); After(k, s, t, Release) == Released(k, s, t)
  {
    var s := Reached(k, n, cls, sched);
    ReachedOk(k, n, cls, sched);
    if s.word.extra > 0 || !s.word.hasSide { ShortRelease(k, s, t); } else { LongRelease(k, s, t); }
  }

  /** And a flag setter sets its flag and changes nothing else. */
  lemma SetterAlone(k: nat, s: Machine, t: nat, f: Flag)
    requires k >= 2 && t < |s.pcs| && s.pcs[t].Idle?
    ensures After(k, s, t, SetFlag(f)) == s.(word := WithFlag(s.word, f))
  {
    var store := Flg(f, FlagStore(s.word));
    Onward(k, s, t, Flg(f, FlagLoad), store, 12);
    if HasFlag(s.word, f) {
      Onward(k, s, t, store, Flg(f, FlagDone), 11);
      Homeward(k, s, t, Flg(f, FlagDone), 10, s);
    } else {
      var w := s.(word := WithFlag(s.word, f));
      AloneFirst(k, Goto(s, t, store), t, 11);
      assert s.pcs[t := store][t := Flg(f, FlagDone)] == s.pcs[t := Flg(f, FlagDone)];
      assert Fire(k, Goto(s, t, store), t, Go) == Goto(w, t, Flg(f, FlagDone));
      Homeward(k, w, t, Flg(f, FlagDone), 10, w);
    }
  }

  /**
   * A release whose first borrow store failed tries once more on the word as it is now; if nobody moves,
   * that one succeeds unless it would overflow, and the borrow is not given back.
   */
  lemma SecondChance(k: nat, n: nat, cls: nat, sched: seq<Move>, t: nat, seen: Isa, b: Borrow)
    requires k >= 2
    requires var s := Reached(k, n, cls, sched);
      t < |s.pcs| && s.pcs[t] == Rel(RelStore1(seen, b)) && s.word != seen && s.word.extra < Half(k) + 1
    ensures var s := Reached(k, n, cls, sched);
      var s' := Run(k, s, Alone(t, 2));
      && s'.releases == s.releases + 1 && s'.table == s.table && t < |s'.pcs|
      && s'.word.extra == s.word.extra + Half(k) - 1
      && (s'.pcs[t] == Rel(RelReturn(true, false)) || s'.pcs[t] == Rel(RelClear(false)))
  {
    var s := Reached(k, n, cls, sched);
    ReachedOk(k, n, cls, sched);
    assert LocalOk(k, s, t);
    HalfFull(k);
    var s1 := Fire(k, s, t, Go);
    assert s1 == Goto(s, t, Rel(RelStore2(s.word, b)));
    AloneFirst(k, s, t, 2);
    AloneFirst(k, s1, t, 1);
    assert Alone(t, 0) == [];
  }
}

/** The whole-run theorems about the split reference count with the side table kept in its word. */
module SideTableRuns {
  import opened Options
  import opened SideTableBits
  import opened SplitRefcount
  import opened SplitRefcountProofs
  import opened SplitRefcountTheorems

  /** Retain stores that succeeded in a schedule. */
  function Taken(k: nat, w: nat, p: Pinnable, sched: seq<Move>): int
    requires Fits(k, w)
    decreases |sched|
  {
    if sched == [] then 0
    else
      var m := sched[0];
      Fire(k, p.m, m.thread, m.choice).retains - p.m.retains
      + Taken(k, w, FireBits(k, w, p, m.thread, m.choice), sched[1..])
  }

  /** Half a field of counts for every add that found the word pinned. */
  function Dropped(k: nat, w: nat, p: Pinnable, sched: seq<Move>): nat
    requires Fits(k, w)
    decreases |sched|
  {
    if sched == [] then 0
    else
      var m := sched[0];
      (if AddPins(w, p.m, m.thread) then Half(k) else 0)
      + Dropped(k, w, FireBits(k, w, p, m.thread, m.choice), sched[1..])
  }

  predicate NeverPins(k: nat, w: nat, p: Pinnable, sched: seq<Move>)
    requires Fits(k, w)
    decreases |sched|
  {
    sched == [] ||
    (!AddPins(w, p.m, sched[0].thread)
     && NeverPins(k, w, FireBits(k, w, p, sched[0].thread, sched[0].choice), sched[1..]))
  }

  lemma {:induction false} RunKeepsBits(k: nat, w: nat, p: Pinnable, sched: seq<Move>)
    requires Fits(k, w) && BitsInv(k, w, p)
    ensures var p' := RunBits(k, w, p, sched);
      && BitsInv(k, w, p')
      && Retained(p') == Retained(p) + Taken(k, w, p, sched)
      && p'.lost == p.lost + Dropped(k, w, p, sched)
    decreases |sched|
  {
    if sched != [] {
      var m := sched[0];
      StepKeepsBits(k, w, p, m.thread, m.choice);
      RunKeepsBits(k, w, FireBits(k, w, p, m.thread, m.choice), sched[1..]);
    }
  }

  lemma FreshOk(k: nat, w: nat, n: nat, cls: nat)
    requires Fits(k, w)
    ensures BitsInv(k, w, Fresh(n, cls))
  {
    InitOk(k, n, cls);
  }

  lemma ReachedBitsOk(k: nat, w: nat, n: nat, cls: nat, sched: seq<Move>)
    requires Fits(k, w)
    ensures BitsInv(k, w, ReachedBits(k, w, n, cls, sched))
  {
    FreshOk(k, w, n, cls);
    RunKeepsBits(k, w, Fresh(n, cls), sched);
  }

  /**
   * Over the word, the count falls short by exactly RC_HALF for each add that found it pinned, and by
   * nothing else; and the object is deallocating exactly when what is left of the count is zero.
   */
  lemma CountLessDropped(k: nat, w: nat, n: nat, cls: nat, sched: seq<Move>)
    requires Fits(k, w)
    ensures var s := ReachedBits(k, w, n, cls, sched).m;
      var taken := Taken(k, w, Fresh(n, cls), sched);
      var dropped := Dropped(k, w, Fresh(n, cls), sched);
      && s.word.extra + s.table + Transit(k, s) == 1 + taken - s.releases - dropped
      && (IsDeallocating(s.word) <==> 1 + taken - s.releases == dropped)
      && s.table <= Limit(w)
  {
    FreshOk(k, w, n, cls);
    RunKeepsBits(k, w, Fresh(n, cls), sched);
  }

  lemma {:induction false} DroppedIff(k: nat, w: nat, p: Pinnable, sched: seq<Move>)
    requires Fits(k, w)
    ensures Dropped(k, w, p, sched) == 0 <==> NeverPins(k, w, p, sched)
    decreases |sched|
  {
    if sched != [] {
      HalfInLimit(k, w);
      DroppedIff(k, w, FireBits(k, w, p, sched[0].thread, sched[0].choice), sched[1..]);
    }
  }

  /** Every count is kept if and only if no add of the schedule found the word pinned. */
  lemma ConservedIff(k: nat, w: nat, n: nat, cls: nat, sched: seq<Move>)
    requires Fits(k, w)
    ensures var s := ReachedBits(k, w, n, cls, sched).m;
      s.word.extra + s.table + Transit(k, s) == 1 + Taken(k, w, Fresh(n, cls), sched) - s.releases
      <==> NeverPins(k, w, Fresh(n, cls), sched)
  {
    CountLessDropped(k, w, n, cls, sched);
    DroppedIff(k, w, Fresh(n, cls), sched);
  }

  /** The count stays below limit in every state of the run over the counter. */
  predicate StaysBelow(k: nat, s: Machine, sched: seq<Move>, limit: int)
    requires k > 0
    decreases |sched|
  {
    Balance(s) < limit
    && (sched == [] || StaysBelow(k, Fire(k, s, sched[0].thread, sched[0].choice), sched[1..], limit))
  }

  lemma {:induction false} SmallNeverPins(k: nat, w: nat, p: Pinnable, sched: seq<Move>)
    requires Fits(k, w) && BitsInv(k, w, p) && StaysBelow(k, p.m, sched, Limit(w) + Half(k))
    ensures RunBits(k, w, p, sched) == Pinnable(Run(k, p.m, sched), p.lost) && NeverPins(k, w, p, sched)
    decreases |sched|
  {
    if sched != [] {
      var m := sched[0];
      if AddPins(w, p.m, m.thread) { assert LocalOk(k, p.m, m.thread); }
      StepKeepsBits(k, w, p, m.thread, m.choice);
      SmallNeverPins(k, w, FireBits(k, w, p, m.thread, m.choice), sched[1..]);
    }
  }

  /** With fewer references than the limit and a half, the word does what the counter does. */
  lemma SmallIsReached(k: nat, w: nat, n: nat, cls: nat, sched: seq<Move>)
    requires Fits(k, w) && StaysBelow(k, Init(n, cls), sched, Limit(w) + Half(k))
    ensures ReachedBits(k, w, n, cls, sched) == Pinnable(Reached(k, n, cls, sched), 0)
  {
    FreshOk(k, w, n, cls);
    SmallNeverPins(k, w, Fresh(n, cls), sched);
  }

  /** A reached borrow takes exactly half, and the assertion that the word shrinks never fires. */
  lemma BorrowIsHalf(k: nat, w: nat, n: nat, cls: nat, sched: seq<Move>, t: nat, seen: Isa)
    requires Fits(k, w)
    requires var s := ReachedBits(k, w, n, cls, sched).m; t < |s.pcs| && s.pcs[t] == Rel(RelSub(seen))
    ensures var s := ReachedBits(k, w, n, cls, sched).m;
      var taken := SideSub(w, 4 * s.table, Half(k));
      && s.table >= Half(k)
      && taken == Subtracted(4 * (s.table - Half(k)), Borrow(Half(k), s.table - Half(k)))
      && 4 * s.table > taken.word
  {
    var p := ReachedBits(k, w, n, cls, sched);
    ReachedBitsOk(k, w, n, cls, sched);
    SubStep(k, w, p, t, Go);
  }

  /** A reached put-back never finds the word pinned. */
  lemma PutBackFits(k: nat, w: nat, n: nat, cls: nat, sched: seq<Move>, t: nat, b: Borrow)
    requires Fits(k, w)
    requires var s := ReachedBits(k, w, n, cls, sched).m; t < |s.pcs| && s.pcs[t] == Rel(RelPutBack(b))
    ensures var s := ReachedBits(k, w, n, cls, sched).m;
      SideAdd(w, 4 * s.table, b.borrowed) == Added(4 * (s.table + b.borrowed), false)
  {
    var p := ReachedBits(k, w, n, cls, sched);
    ReachedBitsOk(k, w, n, cls, sched);
    PutBackStep(k, w, p, t, Go);
  }

  /** Counts lost or not, at most one release reports that it deallocates, and only of a deallocating object. */
  lemma StillDeallocatedOnce(k: nat, w: nat, n: nat, cls: nat, sched: seq<Move>)
    requires Fits(k, w)
    ensures var s := ReachedBits(k, w, n, cls, sched).m;
      s.trueReturns <= 1 && (s.trueReturns == 1 ==> IsDeallocating(s.word))
  {
    ReachedBitsOk(k, w, n, cls, sched);
  }

  // ------------------------------------------------------------------ a run that loses counts

  ghost predicate Leads(k: nat, w: nat, p: Pinnable, q: Pinnable)
    requires Fits(k, w)
  {
    exists sched :: RunBits(k, w, p, sched) == q
  }

  lemma LeadsNowhere(k: nat, w: nat, p: Pinnable)
    requires Fits(k, w)
    ensures Leads(k, w, p, p)
  {
    assert RunBits(k, w, p, []) == p;
  }

  /** p leads where its successor leads. */
  lemma LeadsOn(k: nat, w: nat, p: Pinnable, u: nat, c: Choice, q: Pinnable)
    requires Fits(k, w) && Leads(k, w, FireBits(k, w, p, u, c), q)
    ensures Leads(k, w, p, q)
  {
    var sched :| RunBits(k, w, FireBits(k, w, p, u, c), sched) == q;
    var all := [Move(u, c)] + sched;
    assert all[0] == Move(u, c) && all[1..] == sched;
    assert RunBits(k, w, p, all) == q;
  }

  lemma LeadsThrough(k: nat, w: nat, p: Pinnable, q: Pinnable, r: Pinnable)
    requires Fits(k, w) && Leads(k, w, p, q) && Leads(k, w, q, r)
    ensures Leads(k, w, p, r)
  {
    var sched :| RunBits(k, w, p, sched) == q;
    LeadsAfter(k, w, p, sched, r);
  }

  lemma {:induction false} LeadsAfter(k: nat, w: nat, p: Pinnable, sched: seq<Move>, r: Pinnable)
    requires Fits(k, w) && Leads(k, w, RunBits(k, w, p, sched), r)
    ensures Leads(k, w, p, r)
    decreases |sched|
  {
    if sched != [] {
      LeadsAfter(k, w, FireBits(k, w, p, sched[0].thread, sched[0].choice), sched[1..], r);
      LeadsOn(k, w, p, sched[0].thread, sched[0].choice, r);
    }
  }

  /** u is between calls and no one has the lock. */
  ghost predicate Quiet(k: nat, w: nat, p: Pinnable, u: nat)
    requires Fits(k, w)
  {
    BitsInv(k, w, p) && u < |p.m.pcs| && p.m.pcs[u].Idle? && p.m.lock.None?
  }

  /** p with u inside a call. */
  function At(p: Pinnable, u: nat, pc: Pc): Pinnable
    requires u < |p.m.pcs|
  {
    Pinnable(Goto(p.m, u, pc), p.lost)
  }

  function Holding(p: Pinnable, u: nat): Pinnable { p.(m := p.m.(lock := Some(u))) }

  /** A step that only moves u on. */
  lemma Onward(k: nat, w: nat, p: Pinnable, u: nat, pc: Pc, pc': Pc, q: Pinnable)
    requires Fits(k, w) && u < |p.m.pcs| && FireBits(k, w, At(p, u, pc), u, Go) == At(At(p, u, pc), u, pc')
    requires Leads(k, w, At(p, u, pc'), q)
    ensures Leads(k, w, At(p, u, pc), q)
  {
    assert p.m.pcs[u := pc][u := pc'] == p.m.pcs[u := pc'];
    LeadsOn(k, w, At(p, u, pc), u, Go, q);
  }

  /** Where a retain that needs the table stands when it is about to add. */
  function Adding(k: nat, p: Pinnable, u: nat): Pinnable
    requires k > 0 && u < |p.m.pcs|
  {
    var s := p.m.(word := p.m.word.(extra := Half(k), hasSide := true), retains := p.m.retains + 1);
    At(Holding(Pinnable(s, p.lost), u), u, Ret(RetAdd(false)))
  }

  lemma ShortRetain(k: nat, w: nat, p: Pinnable, u: nat, q: Pinnable)
    requires Fits(k, w) && Quiet(k, w, p, u) && !IsDeallocating(p.m.word) && p.m.word.extra + 1 < Full(k)
    requires q == Pinnable(p.m.(word := p.m.word.(extra := p.m.word.extra + 1), retains := p.m.retains + 1), p.lost)
    ensures Leads(k, w, p, q)
  {
    var word := p.m.word;
    var load, top := RetLoad(false, false), RetTop(false, false, word, false);
    var store := RetStore(false, false, word, false);
    LeadsNowhere(k, w, q);
    assert q.m.pcs == p.m.pcs[u := Ret(store)][u := Idle];
    LeadsOn(k, w, At(p, u, Ret(store)), u, Go, q);
    Onward(k, w, p, u, Ret(top), Ret(store), q);
    Onward(k, w, p, u, Ret(load), Ret(top), q);
    LeadsOn(k, w, p, u, Retain, q);
  }

  /** A retain that overflows goes round the full variant and waits for the lock. */
  lemma LongRetainWaits(k: nat, w: nat, p: Pinnable, u: nat, q: Pinnable)
    requires Fits(k, w) && Quiet(k, w, p, u) && !IsDeallocating(p.m.word) && p.m.word.extra + 1 == Full(k)
    requires Leads(k, w, At(p, u, Ret(RetWait(p.m.word))), q)
    ensures Leads(k, w, p, q)
  {
    var word := p.m.word;
    var load, top := RetLoad(false, false), RetTop(false, false, word, false);
    var fullLoad, fullTop := RetLoad(true, false), RetTop(true, false, word, false);
    Onward(k, w, p, u, Ret(fullTop), Ret(RetWait(word)), q);
    Onward(k, w, p, u, Ret(fullLoad), Ret(fullTop), q);
    Onward(k, w, p, u, Ret(top), Ret(fullLoad), q);
    Onward(k, w, p, u, Ret(load), Ret(top), q);
    LeadsOn(k, w, p, u, Retain, q);
  }

  lemma LongRetainStores(k: nat, w: nat, p: Pinnable, u: nat, q: Pinnable)
    requires Fits(k, w) && Quiet(k, w, p, u) && !IsDeallocating(p.m.word) && p.m.word.extra + 1 == Full(k)
    requires Leads(k, w, Adding(k, p, u), q)
    ensures Leads(k, w, At(p, u, Ret(RetWait(p.m.word))), q)
  {
    var store := At(Holding(p, u), u, Ret(RetStore(true, false, p.m.word, true)));
    assert p.m.pcs[u := Ret(RetStore(true, false, p.m.word, true))][u := Ret(RetAdd(false))]
        == p.m.pcs[u := Ret(RetAdd(false))];
    assert p.m.pcs[u := Ret(RetWait(p.m.word))][u := Ret(RetStore(true, false, p.m.word, true))]
        == p.m.pcs[u := Ret(RetStore(true, false, p.m.word, true))];
    LeadsOn(k, w, store, u, Go, q);
    assert FireBits(k, w, At(p, u, Ret(RetWait(p.m.word))), u, Go) == store;
    LeadsOn(k, w, At(p, u, Ret(RetWait(p.m.word))), u, Go, q);
  }

  lemma LongRetainEnds(k: nat, w: nat, p: Pinnable, u: nat) returns (q: Pinnable)
    requires Fits(k, w) && Quiet(k, w, p, u) && BitsInv(k, w, Adding(k, p, u))
    ensures q == FireBits(k, w, FireBits(k, w, Adding(k, p, u), u, Go), u, Go)
    ensures q.m.pcs == p.m.pcs && q.m.lock.None? && q.m.word == Adding(k, p, u).m.word
    ensures q.m.releases == p.m.releases && Retained(q) == Retained(p) + 1 && q.lost >= p.lost
    ensures Leads(k, w, Adding(k, p, u), q)
  {
    var a := Adding(k, p, u);
    var b := FireBits(k, w, a, u, Go);
    StepKeepsBits(k, w, a, u, Go);
    assert b.m.pcs == p.m.pcs[u := Ret(RetUnlock)] && b.m.word == a.m.word && b.m.releases == p.m.releases;
    q := FireBits(k, w, b, u, Go);
    assert q.m.pcs == p.m.pcs;
    LeadsNowhere(k, w, q);
    LeadsOn(k, w, b, u, Go, q);
    LeadsOn(k, w, a, u, Go, q);
  }

  lemma LeadsKeeps(k: nat, w: nat, p: Pinnable, q: Pinnable)
    requires Fits(k, w) && BitsInv(k, w, p) && Leads(k, w, p, q)
    ensures BitsInv(k, w, q)
  {
    var sched :| RunBits(k, w, p, sched) == q;
    RunKeepsBits(k, w, p, sched);
  }

  /** u retains, undisturbed. */
  lemma QuietRetains(k: nat, w: nat, p: Pinnable, u: nat) returns (q: Pinnable)
    requires Fits(k, w) && Quiet(k, w, p, u) && !IsDeallocating(p.m.word)
    ensures Quiet(k, w, q, u) && Leads(k, w, p, q) && !IsDeallocating(q.m.word)
    ensures Retained(q) == Retained(p) + 1 && q.m.releases == p.m.releases && q.lost >= p.lost
  {
    if p.m.word.extra + 1 < Full(k) {
      q := Pinnable(p.m.(word := p.m.word.(extra := p.m.word.extra + 1), retains := p.m.retains + 1), p.lost);
      ShortRetain(k, w, p, u, q);
    } else {
      var a := Adding(k, p, u);
      LeadsNowhere(k, w, a);
      LongRetainStores(k, w, p, u, a);
      LongRetainWaits(k, w, p, u, a);
      LeadsKeeps(k, w, p, a);
      q := LongRetainEnds(k, w, p, u);
      LeadsThrough(k, w, p, a, q);
      HalfFull(k);
    }
    LeadsKeeps(k, w, p, q);
  }

  /** Retaining on and on ends in a lost count: what is held is never more than the limit and a full field. */
  lemma {:induction false} RetainsUntilLoss(k: nat, w: nat, p: Pinnable, u: nat) returns (q: Pinnable)
    requires Fits(k, w) && Quiet(k, w, p, u) && !IsDeallocating(p.m.word) && p.lost >= 0
    ensures Quiet(k, w, q, u) && Leads(k, w, p, q) && q.lost > 0
    decreases Limit(w) + Full(k) - Retained(p) + p.m.releases
  {
    if p.lost > 0 {
      q := p;
      LeadsNowhere(k, w, p);
    } else {
      var r := QuietRetains(k, w, p, u);
      q := RetainsUntilLoss(k, w, r, u);
      LeadsThrough(k, w, p, r, q);
    }
  }

  lemma ShortRelease(k: nat, w: nat, p: Pinnable, u: nat) returns (q: Pinnable)
    requires Fits(k, w) && Quiet(k, w, p, u) && p.m.word.extra > 0
    ensures Leads(k, w, p, q) && q.m.pcs == p.m.pcs && q.m.lock.None?
    ensures q.m.releases == p.m.releases + 1 && q.m.retains == p.m.retains && q.lost == p.lost
  {
    var word := p.m.word;
    var load, top, store := RelLoad(false), RelTop(false, word, false), RelStore(false, word, false);
    var stored := FireBits(k, w, At(p, u, Rel(store)), u, Go);
    q := FireBits(k, w, stored, u, Go);
    assert q.m.pcs == p.m.pcs;
    LeadsNowhere(k, w, q);
    LeadsOn(k, w, stored, u, Go, q);
    LeadsOn(k, w, At(p, u, Rel(store)), u, Go, q);
    Onward(k, w, p, u, Rel(top), Rel(store), q);
    Onward(k, w, p, u, Rel(load), Rel(top), q);
    LeadsOn(k, w, p, u, Release, q);
  }

  /** A release of an empty field goes round the full variant and waits for the lock. */
  lemma LongReleaseWaits(k: nat, w: nat, p: Pinnable, u: nat, q: Pinnable)
    requires Fits(k, w) && Quiet(k, w, p, u) && p.m.word.extra == 0 && p.m.word.hasSide
    requires Leads(k, w, At(p, u, Rel(RelWait)), q)
    ensures Leads(k, w, p, q)
  {
    var word := p.m.word;
    var load, top := RelLoad(false), RelTop(false, word, false);
    var fullLoad, fullTop := RelLoad(true), RelTop(true, word, false);
    Onward(k, w, p, u, Rel(fullTop), Rel(RelWait), q);
    Onward(k, w, p, u, Rel(fullLoad), Rel(fullTop), q);
    Onward(k, w, p, u, Rel(top), Rel(fullLoad), q);
    Onward(k, w, p, u, Rel(load), Rel(top), q);
    LeadsOn(k, w, p, u, Release, q);
  }

  /** And then reaches the borrow. */
  lemma LongReleaseLocks(k: nat, w: nat, p: Pinnable, u: nat, q: Pinnable)
    requires Fits(k, w) && Quiet(k, w, p, u) && p.m.word.extra == 0 && p.m.word.hasSide
    requires Leads(k, w, At(Holding(p, u), u, Rel(RelSub(p.m.word))), q)
    ensures Leads(k, w, At(p, u, Rel(RelWait)), q)
  {
    var word, h := p.m.word, Holding(p, u);
    Onward(k, w, h, u, Rel(RelTop(true, word, true)), Rel(RelSub(word)), q);
    Onward(k, w, h, u, Rel(RelReload), Rel(RelTop(true, word, true)), q);
    assert p.m.pcs[u := Rel(RelWait)][u := Rel(RelReload)] == p.m.pcs[u := Rel(RelReload)];
    LeadsOn(k, w, At(p, u, Rel(RelWait)), u, Go, q);
  }

  /** The borrow itself, stored at the first attempt. */
  lemma LongReleaseBorrows(k: nat, w: nat, p: Pinnable, u: nat) returns (r: Pinnable)
    requires Fits(k, w) && u < |p.m.pcs| && p.m.word.extra == 0 && p.m.word.hasSide
    requires BitsInv(k, w, At(Holding(p, u), u, Rel(RelSub(p.m.word))))
    ensures Leads(k, w, At(Holding(p, u), u, Rel(RelSub(p.m.word))), r)
    ensures u < |r.m.pcs| && r.m.pcs == p.m.pcs[u := r.m.pcs[u]] && r.m.lock == Some(u)
    ensures r.m.pcs[u] == Rel(RelClear(false)) || r.m.pcs[u] == Rel(RelReturn(true, false))
    ensures r.m.releases == p.m.releases + 1 && r.m.retains == p.m.retains && r.lost == p.lost
  {
    var a := At(Holding(p, u), u, Rel(RelSub(p.m.word)));
    SubStep(k, w, a, u, Go);
    HalfFull(k);
    var b := FireBits(k, w, a, u, Go);
    r := FireBits(k, w, b, u, Go);
    LeadsNowhere(k, w, r);
    LeadsOn(k, w, b, u, Go, r);
    LeadsOn(k, w, a, u, Go, r);
    assert r.m.pcs == p.m.pcs[u := r.m.pcs[u]];
  }

  lemma LongReleaseEnds(k: nat, w: nat, p: Pinnable, r: Pinnable, u: nat) returns (q: Pinnable)
    requires Fits(k, w) && u < |p.m.pcs| == |r.m.pcs| && p.m.pcs[u].Idle? && r.m.pcs == p.m.pcs[u := r.m.pcs[u]]
    requires r.m.pcs[u] == Rel(RelClear(false)) || r.m.pcs[u] == Rel(RelReturn(true, false))
    ensures Leads(k, w, r, q) && q.m.pcs == p.m.pcs && q.m.lock.None?
    ensures q.m.releases == r.m.releases && q.m.retains == r.m.retains && q.lost == r.lost
  {
    var x := if r.m.pcs[u] == Rel(RelClear(false)) then FireBits(k, w, r, u, Go) else r;
    q := FireBits(k, w, x, u, Go);
    assert q.m.pcs == p.m.pcs;
    LeadsNowhere(k, w, q);
    LeadsOn(k, w, x, u, Go, q);
    if x != r { LeadsOn(k, w, r, u, Go, q); }
  }

  /** u releases, undisturbed. */
  lemma QuietReleases(k: nat, w: nat, p: Pinnable, u: nat) returns (q: Pinnable)
    requires Fits(k, w) && Quiet(k, w, p, u) && !IsDeallocating(p.m.word)
    ensures Quiet(k, w, q, u) && Leads(k, w, p, q)
    ensures q.m.releases == p.m.releases + 1 && q.m.retains == p.m.retains && q.lost == p.lost
  {
    if p.m.word.extra > 0 {
      q := ShortRelease(k, w, p, u);
    } else {
      var a := At(Holding(p, u), u, Rel(RelSub(p.m.word)));
      LeadsNowhere(k, w, a);
      LongReleaseLocks(k, w, p, u, a);
      LongReleaseWaits(k, w, p, u, a);
      LeadsKeeps(k, w, p, a);
      var r := LongReleaseBorrows(k, w, p, u);
      q := LongReleaseEnds(k, w, p, r, u);
      LeadsThrough(k, w, a, r, q);
      LeadsThrough(k, w, p, a, q);
    }
    LeadsKeeps(k, w, p, q);
  }

  lemma {:induction false} ReleasesToTheEnd(k: nat, w: nat, p: Pinnable, u: nat) returns (q: Pinnable)
    requires Fits(k, w) && Quiet(k, w, p, u)
    ensures Leads(k, w, p, q) && IsDeallocating(q.m.word) && q.lost == p.lost
    decreases Balance(p.m)
  {
    if IsDeallocating(p.m.word) {
      q := p;
      LeadsNowhere(k, w, p);
    } else {
      var r := QuietReleases(k, w, p, u);
      q := ReleasesToTheEnd(k, w, r, u);
      LeadsThrough(k, w, p, r, q);
    }
  }

  /**
   * Pinning does not stick: one thread that retains past the limit, and then releases, brings the object
   * to deallocation while it still owes releases for the retains whose counts were dropped.
   */
  lemma DeallocatedTooEarly(k: nat, w: nat, cls: nat) returns (sched: seq<Move>)
    requires Fits(k, w)
    ensures var s := ReachedBits(k, w, 1, cls, sched).m;
      IsDeallocating(s.word) && s.releases < 1 + Taken(k, w, Fresh(1, cls), sched)
  {
    var p := Fresh(1, cls);
    FreshOk(k, w, 1, cls);
    var q := RetainsUntilLoss(k, w, p, 0);
    var r := ReleasesToTheEnd(k, w, q, 0);
    LeadsThrough(k, w, p, q, r);
    sched :| RunBits(k, w, p, sched) == r;
    CountLessDropped(k, w, 1, cls, sched);
    RunKeepsBits(k, w, p, sched);
  }
}

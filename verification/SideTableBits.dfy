/**
 * The side table's word for one object: the count above two flag bits, which are clear while the isa is
 * nonpointer. SplitRefcount keeps the table as a counter; here its adds and subtractions go through the
 * w-bit word, whose top bit means pinned: an add that finds it set drops what it was to put in.
 */
module SideTableBits {
  import opened IsaBits
  import opened Options
  import opened SplitRefcount
  import opened SplitRefcountProofs
  import opened Words

  // ------------------------------------------------------------------ the word

  /** The least count whose word has the top bit set. */
  function Limit(w: nat): nat
    requires w >= 3
  {
    Pow2(w - 3)
  }

  datatype Added = Added(word: nat, pinned: bool)

  /** sidetable_addExtraRC_nolock on the stored word. */
  function SideAdd(w: nat, word: nat, delta: nat): Added
    requires w >= 3
  {
    if word >= Pow2(w - 1) then Added(word, true)
    else
      var sum := Addc(w, word, (4 * delta) % Pow2(w));
      if sum.carry then Added(Pow2(w - 1) + word % 4, true) else Added(sum.bits, false)
  }

  datatype Subtracted = Subtracted(word: nat, borrow: Borrow)

  /** sidetable_subExtraRC_nolock: no test for the pinned bit, and a subtraction that may wrap. */
  function SideSub(w: nat, word: nat, delta: nat): Subtracted {
    if word == 0 then Subtracted(0, Borrow(0, 0))
    else
      var left := Subc(w, word, (4 * delta) % Pow2(w)).bits;
      Subtracted(left, Borrow(delta, left / 4))
  }

  lemma Sizes(w: nat)
    requires w >= 3
    ensures Pow2(w - 1) == 4 * Limit(w) && Pow2(w) == 8 * Limit(w)
  {
    assert Pow2(w - 1) == 2 * Pow2(w - 2);
  }

  lemma ModSmall(a: nat, m: nat)
    requires a < m
    ensures a % m == a
  {
    DivUnique(a, m, 0, a);
  }

  /** Below the limit an add is exact; from it on, the whole amount is dropped. The carry branch is never taken. */
  lemma AddIsExactIff(w: nat, c: nat, d: nat)
    requires w >= 3 && 0 < d <= Limit(w) && 4 * c < Pow2(w)
    ensures SideAdd(w, 4 * c, d) == if c < Limit(w) then Added(4 * (c + d), false) else Added(4 * c, true)
    ensures SideAdd(w, 4 * c, d).word == 4 * (c + d) <==> c < Limit(w)
  {
    Sizes(w);
    ModSmall(4 * d, Pow2(w));
    if c < Limit(w) { ModSmall(4 * c + 4 * d, Pow2(w)); }
  }

  /** A subtraction is exact when the table has that much, and otherwise the assertion that it shrinks fails. */
  lemma SubIsExactIff(w: nat, c: nat, d: nat)
    requires w >= 3 && 0 < d && 4 * d < Pow2(w) && 0 < c && 4 * c < Pow2(w)
    ensures d <= c ==> SideSub(w, 4 * c, d) == Subtracted(4 * (c - d), Borrow(d, c - d))
    ensures 4 * c > SideSub(w, 4 * c, d).word <==> d <= c
  {
    ModSmall(4 * d, Pow2(w));
  }

  // ------------------------------------------------------------------ runs over the word

  predicate Fits(k: nat, w: nat) { k >= 2 && k + 2 <= w }

  /** m.retains counts the retains whose count is still held; lost, those whose count an add dropped. */
  datatype Pinnable = Pinnable(m: Machine, lost: int)

  function Retained(p: Pinnable): int { p.m.retains + p.lost }

  /** The step next of p, with the table's add as the word does it. */
  function PutIn(p: Pinnable, next: Machine, sum: Added, amount: nat): Pinnable {
    var gone := p.m.table + amount - sum.word / 4;
    Pinnable(next.(table := sum.word / 4, retains := if next.retains < gone then 0 else next.retains - gone),
             p.lost + gone)
  }

  /** One step, with the side table's word as the code keeps it. */
  function FireBits(k: nat, w: nat, p: Pinnable, t: nat, c: Choice): Pinnable
    requires Fits(k, w)
  {
    var s := p.m;
    var next := Fire(k, s, t, c);
    if t >= |s.pcs| then p
    else match s.pcs[t]
      case Ret(RetAdd(_)) => PutIn(p, next, SideAdd(w, 4 * s.table, Half(k)), Half(k))
      case Rel(RelPutBack(b)) => PutIn(p, next, SideAdd(w, 4 * s.table, b.borrowed), b.borrowed)
      case Rel(RelSub(seen)) =>
        var taken := SideSub(w, 4 * s.table, Half(k));
        var pc := if taken.borrow.borrowed > 0 then RelStore1(seen, taken.borrow) else RelEmpty;
        Pinnable(ToRel(s.(table := taken.word / 4), t, pc), p.lost)
      case _ => Pinnable(next, p.lost)
  }

  function RunBits(k: nat, w: nat, p: Pinnable, sched: seq<Move>): Pinnable
    requires Fits(k, w)
    decreases |sched|
  {
    if sched == [] then p
    else RunBits(k, w, FireBits(k, w, p, sched[0].thread, sched[0].choice), sched[1..])
  }

  function Fresh(n: nat, cls: nat): Pinnable { Pinnable(Init(n, cls), 0) }

  function ReachedBits(k: nat, w: nat, n: nat, cls: nat, sched: seq<Move>): Pinnable
    requires Fits(k, w)
  {
    RunBits(k, w, Fresh(n, cls), sched)
  }

  predicate AtAdd(s: Machine, t: nat) { t < |s.pcs| && s.pcs[t].Ret? && s.pcs[t].r.RetAdd? }

  /** t is about to put half the inline counts into a table whose word has its top bit set. */
  predicate AddPins(w: nat, s: Machine, t: nat)
    requires w >= 3
  {
    AtAdd(s, t) && s.table >= Limit(w)
  }

  /** What is borrowed from the table and may go back. */
  function OnLoan(k: nat, s: Machine): nat
    requires k > 0
  {
    if s.lock.Some? && s.lock.value < |s.pcs| && s.pcs[s.lock.value].Rel? then Transit(k, s) else 0
  }

  ghost predicate BitsInv(k: nat, w: nat, p: Pinnable)
    requires Fits(k, w)
  {
    Inv(k, p.m) && p.m.table + OnLoan(k, p.m) <= Limit(w)
  }

  lemma {:induction false} NextMultiple(a: nat, b: nat, h: nat)
    requires h > 0 && Multiple(a, h) && Multiple(b, h) && a < b
    ensures a + h <= b
  {
    if a > 0 { NextMultiple(a - h, b - h, h); }
  }

  lemma {:induction false} PowerIsMultiple(i: nat, j: nat)
    requires i <= j
    ensures Multiple(Pow2(j), Pow2(i))
    decreases j
  {
    if i == j {
      assert Multiple(0, Pow2(i));
    } else {
      PowerIsMultiple(i, j - 1);
      MultipleSum(Pow2(j - 1), Pow2(j - 1), Pow2(i));
    }
  }

  lemma {:induction false} MultipleSum(a: nat, b: nat, h: nat)
    requires h > 0 && Multiple(a, h) && Multiple(b, h)
    ensures Multiple(a + b, h)
  {
    if a > 0 { MultipleSum(a - h, b, h); }
  }

  /** A table below the limit has room for another half. */
  lemma RoomForHalf(k: nat, w: nat, table: nat)
    requires Fits(k, w) && Multiple(table, Half(k)) && table < Limit(w)
    ensures table + Half(k) <= Limit(w)
  {
    PowerIsMultiple(k - 1, w - 3);
    NextMultiple(table, Limit(w), Half(k));
  }

  lemma HalfInLimit(k: nat, w: nat)
    requires Fits(k, w)
    ensures 0 < Half(k) <= Limit(w)
  {
    Pow2Mono(k - 1, w - 3);
  }

  /** A retain's add below the limit is exact. */
  lemma AddExact(k: nat, w: nat, p: Pinnable, t: nat, c: Choice)
    requires Fits(k, w) && AtAdd(p.m, t) && p.m.table < Limit(w)
    ensures FireBits(k, w, p, t, c) == Pinnable(Fire(k, p.m, t, c), p.lost)
  {
    HalfInLimit(k, w);
    Sizes(w);
    AddIsExactIff(w, p.m.table, Half(k));
  }

  /** And it leaves room. */
  lemma AddFits(k: nat, w: nat, s: Machine, t: nat, c: Choice)
    requires Fits(k, w) && Inv(k, s) && AtAdd(s, t) && s.table < Limit(w)
    ensures var s' := Fire(k, s, t, c); s'.table + OnLoan(k, s') <= Limit(w)
  {
    assert LocalOk(k, s, t);
    RoomForHalf(k, w, s.table);
  }

  /** From the limit on, half the inline counts are lost, and what is left is as if they never were. */
  lemma AddPinned(k: nat, w: nat, p: Pinnable, t: nat, c: Choice)
    requires Fits(k, w) && BitsInv(k, w, p) && AddPins(w, p.m, t)
    ensures BitsInv(k, w, FireBits(k, w, p, t, c))
    ensures FireBits(k, w, p, t, c).lost == p.lost + Half(k) && Retained(FireBits(k, w, p, t, c)) == Retained(p)
  {
    var s := p.m;
    HalfInLimit(k, w);
    Sizes(w);
    AddIsExactIff(w, s.table, Half(k));
    assert LocalOk(k, s, t);
    HalfFull(k);
    var pc := if s.pcs[t].r.attempt then Ret(TryHome(true)) else Ret(RetUnlock);
    var s' := Goto(s, t, pc).(retains := s.retains - Half(k));
    assert FireBits(k, w, p, t, c) == Pinnable(s', p.lost + Half(k));
    Moved(k, s, s', t, pc);
    OthersOk(k, s, s', t);
  }

  /** A release's put-back is exact: what was borrowed leaves room. */
  lemma PutBackStep(k: nat, w: nat, p: Pinnable, t: nat, c: Choice)
    requires Fits(k, w) && BitsInv(k, w, p) && t < |p.m.pcs| && p.m.pcs[t].Rel? && p.m.pcs[t].l.RelPutBack?
    ensures var b := p.m.pcs[t].l.b;
      b.borrowed == Half(k) && p.m.table + Half(k) <= Limit(w)
      && SideAdd(w, 4 * p.m.table, Half(k)) == Added(4 * (p.m.table + Half(k)), false)
    ensures FireBits(k, w, p, t, c) == Pinnable(Fire(k, p.m, t, c), p.lost)
  {
    assert LocalOk(k, p.m, t);
    HalfFull(k);
    HalfInLimit(k, w);
    Sizes(w);
    AddIsExactIff(w, p.m.table, Half(k));
  }

  /** A release's borrow is exact. */
  lemma SubStep(k: nat, w: nat, p: Pinnable, t: nat, c: Choice)
    requires Fits(k, w) && BitsInv(k, w, p) && t < |p.m.pcs| && p.m.pcs[t].Rel? && p.m.pcs[t].l.RelSub?
    ensures p.m.table >= Half(k)
    ensures SideSub(w, 4 * p.m.table, Half(k)) ==
            Subtracted(4 * (p.m.table - Half(k)), Borrow(Half(k), p.m.table - Half(k)))
    ensures FireBits(k, w, p, t, c) == Pinnable(Fire(k, p.m, t, c), p.lost)
  {
    assert LocalOk(k, p.m, t);
    HalfFull(k);
    HalfInLimit(k, w);
    Sizes(w);
    SubIsExactIff(w, p.m.table, Half(k));
  }

  /** Every step that is not an add to a pinned word is the step over the counter. */
  lemma OtherStep(k: nat, w: nat, p: Pinnable, t: nat, c: Choice)
    requires Fits(k, w) && BitsInv(k, w, p) && FireBits(k, w, p, t, c) == Pinnable(Fire(k, p.m, t, c), p.lost)
    requires !AtAdd(p.m, t)
    ensures BitsInv(k, w, FireBits(k, w, p, t, c))
  {
    StepKeepsInv(k, p.m, t, c);
    if t < |p.m.pcs| {
      assert LocalOk(k, p.m, t);
      HalfFull(k);
      LoanStep(k, p.m, t, c);
    }
  }

  /** What t itself has on loan. */
  function OwnLoan(k: nat, pc: Pc): nat
    requires k > 0
  {
    if pc.Rel? then InFlight(k, pc) else 0
  }

  predicate LoanShrinks(k: nat, s: Machine, t: nat, s': Machine)
    requires k > 0
  {
    t < |s.pcs| == |s'.pcs| && s'.table + OwnLoan(k, s'.pcs[t]) <= s.table + OwnLoan(k, s.pcs[t])
  }

  lemma RelLoan(k: nat, s: Machine, t: nat, l: RelPc, c: Choice)
    requires k >= 2 && t < |s.pcs| && s.pcs[t] == Rel(l) && RelOk(k, s, t, l)
    ensures LoanShrinks(k, s, t, FireRelease(k, s, t, l, c))
  {}

  lemma RetLoan(k: nat, s: Machine, t: nat, r: RetPc, c: Choice)
    requires k >= 2 && t < |s.pcs| && s.pcs[t] == Ret(r) && !r.RetAdd?
    ensures LoanShrinks(k, s, t, FireRetain(k, s, t, r, c))
  {}

  lemma CntLoan(k: nat, s: Machine, t: nat, n: CntPc)
    requires k >= 2 && t < |s.pcs| && s.pcs[t] == Cnt(n)
    ensures LoanShrinks(k, s, t, FireCount(s, t, n))
  {}

  lemma FlagLoan(k: nat, s: Machine, t: nat, f: Flag, g: FlagPc, c: Choice)
    requires k >= 2 && t < |s.pcs| && s.pcs[t] == Flg(f, g)
    ensures LoanShrinks(k, s, t, FireFlag(s, t, f, g, c))
  {}

  /** Only a retain's add makes the table and its loans grow. */
  lemma OwnLoanStep(k: nat, s: Machine, t: nat, c: Choice)
    requires k >= 2 && t < |s.pcs| && LocalOk(k, s, t) && !AtAdd(s, t)
    ensures LoanShrinks(k, s, t, Fire(k, s, t, c))
  {
    match s.pcs[t]
    case Idle =>
    case Ret(r) => RetLoan(k, s, t, r, c);
    case Rel(l) => RelLoan(k, s, t, l, c);
    case Cnt(n) => CntLoan(k, s, t, n);
    case Flg(f, g) => FlagLoan(k, s, t, f, g, c);
  }

  /** A loan is its holder's own. */
  lemma LoanIsOwn(k: nat, s: Machine, t: nat)
    requires k >= 2 && Inv(k, s) && t < |s.pcs| && (s.lock.None? || s.lock == Some(t))
    ensures OnLoan(k, s) == OwnLoan(k, s.pcs[t])
  {
    assert LocalOk(k, s, t);
  }

  lemma LoanStep(k: nat, s: Machine, t: nat, c: Choice)
    requires k >= 2 && Inv(k, s) && t < |s.pcs| && !AtAdd(s, t)
    ensures var s' := Fire(k, s, t, c); s'.table + OnLoan(k, s') <= s.table + OnLoan(k, s)
  {
    var s' := Fire(k, s, t, c);
    StepKeepsInv(k, s, t, c);
    assert Frame(s, s', t) && LocalOk(k, s, t);
    if s.lock.None? || s.lock == Some(t) {
      LoanIsOwn(k, s, t);
      LoanIsOwn(k, s', t);
      OwnLoanStep(k, s, t, c);
    }
  }

  lemma StepKeepsBits(k: nat, w: nat, p: Pinnable, t: nat, c: Choice)
    requires Fits(k, w) && BitsInv(k, w, p)
    ensures var p' := FireBits(k, w, p, t, c);
      && BitsInv(k, w, p')
      && Retained(p') - Retained(p) == Fire(k, p.m, t, c).retains - p.m.retains
      && p'.lost == p.lost + (if AddPins(w, p.m, t) then Half(k) else 0)
      && (!AddPins(w, p.m, t) ==> p'.m == Fire(k, p.m, t, c))
  {
    if t >= |p.m.pcs| { return; }
    if AtAdd(p.m, t) {
      if AddPins(w, p.m, t) {
        AddPinned(k, w, p, t, c);
      } else {
        AddExact(k, w, p, t, c);
        AddFits(k, w, p.m, t, c);
        StepKeepsInv(k, p.m, t, c);
      }
      return;
    }
    if p.m.pcs[t].Rel? && p.m.pcs[t].l.RelPutBack? { PutBackStep(k, w, p, t, c); }
    if p.m.pcs[t].Rel? && p.m.pcs[t].l.RelSub? { SubStep(k, w, p, t, c); }
    OtherStep(k, w, p, t, c);
  }
}

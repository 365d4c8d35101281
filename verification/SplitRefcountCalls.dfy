/**
 * What one call of the split reference count does, whatever other threads do meanwhile: what its own
 * thread's steps add up to, from where the call begins to where it returns.
 */
module SplitRefcountCalls {
  import opened Options
  import opened SplitRefcount
  import opened SplitRefcountProofs
  import opened SplitRefcountTheorems

  /** Retains and releases that took effect, stores that made the object deallocating, releases that answered true. */
  datatype History = Retains | Releases | Wins | Answers

  function Rise(h: History, s: Machine, s': Machine): int {
    match h
    case Retains => s'.retains - s.retains
    case Releases => s'.releases - s.releases
    case Wins => if !IsDeallocating(s.word) && IsDeallocating(s'.word) then 1 else 0
    case Answers => s'.trueReturns - s.trueReturns
  }

  /** What t's own steps in a schedule add to a history. */
  function Own(h: History, k: nat, s: Machine, t: nat, sched: seq<Move>): int
    requires k > 0
    decreases |sched|
  {
    if sched == [] then 0
    else
      var s' := Fire(k, s, sched[0].thread, sched[0].choice);
      (if sched[0].thread == t then Rise(h, s, s') else 0) + Own(h, k, s', t, sched[1..])
  }

  // ------------------------------------------------------------------ retain and try-retain

  /** r belongs to a weak load, not to a plain retain. */
  predicate IsAttempt(r: RetPc) {
    match r
    case RetLoad(_, a) => a
    case RetTop(_, a, _, _) => a
    case RetStore(_, a, _, _) => a
    case RetAdd(a) => a
    case RetWait(_) => false
    case RetUnlock => false
    case _ => true
  }

  /** Past the store that retains. */
  predicate HasRetained(r: RetPc) { r.RetAdd? || r.RetUnlock? || r == TryHome(true) }

  /** Where a plain retain or a weak load is when its own steps have retained n times. */
  predicate RetainAt(attempt: bool, w: Isa, pc: Pc, n: int) {
    match pc
    case Idle => n == 1 || (n == 0 && IsDeallocating(w))
    case Ret(r) => IsAttempt(r) == attempt && n == if HasRetained(r) then 1 else 0
    case _ => false
  }

  predicate RetainGoesOn(attempt: bool, s: Machine, s': Machine, t: nat, n: int) {
    && t < |s'.pcs| && RetainAt(attempt, s'.word, s'.pcs[t], n + Rise(Retains, s, s'))
    && Rise(Releases, s, s') == Rise(Wins, s, s') == Rise(Answers, s, s') == 0
  }

  lemma RetainStep(k: nat, s: Machine, t: nat, r: RetPc, c: Choice, attempt: bool, n: int)
    requires k >= 2 && t < |s.pcs| && s.pcs[t] == Ret(r) && RetOk(k, s, r) && !r.RetTop? && !r.RetStore?
    requires RetainAt(attempt, s.word, s.pcs[t], n)
    ensures RetainGoesOn(attempt, s, FireRetain(k, s, t, r, c), t, n)
  {}

  lemma RetainTopStep(k: nat, s: Machine, t: nat, r: RetPc, c: Choice, attempt: bool, n: int)
    requires k >= 2 && t < |s.pcs| && s.pcs[t] == Ret(r) && RetOk(k, s, r) && r.RetTop?
    requires RetainAt(attempt, s.word, s.pcs[t], n)
    ensures RetainGoesOn(attempt, s, FireRetain(k, s, t, r, c), t, n)
  {}

  lemma RetainStoreStep(k: nat, s: Machine, t: nat, r: RetPc, c: Choice, attempt: bool, n: int)
    requires k >= 2 && t < |s.pcs| && s.pcs[t] == Ret(r) && RetOk(k, s, r) && r.RetStore?
    requires RetainAt(attempt, s.word, s.pcs[t], n)
    ensures RetainGoesOn(attempt, s, FireRetain(k, s, t, r, c), t, n)
  {
    HalfFull(k);
  }

  lemma RetainOwnStep(k: nat, s: Machine, t: nat, c: Choice, attempt: bool, n: int)
    requires k >= 2 && t < |s.pcs| && LocalOk(k, s, t) && RetainAt(attempt, s.word, s.pcs[t], n) && (c.Go? || c.Fail?)
    ensures RetainGoesOn(attempt, s, Fire(k, s, t, c), t, n)
  {
    match s.pcs[t]
    case Idle =>
    case Ret(r) =>
      match r {
        case RetTop(_, _, _, _) => RetainTopStep(k, s, t, r, c, attempt, n);
        case RetStore(_, _, _, _) => RetainStoreStep(k, s, t, r, c, attempt, n);
        case _ => RetainStep(k, s, t, r, c, attempt, n);
      }
  }

  /** Other threads leave t where it is, and do not take back that the object is deallocating. */
  lemma OthersMove(k: nat, s: Machine, u: nat, c: Choice, t: nat)
    requires k >= 2 && Inv(k, s) && t < |s.pcs| && u != t
    ensures var s' := Fire(k, s, u, c);
      Inv(k, s') && t < |s'.pcs| && s'.pcs[t] == s.pcs[t] && (IsDeallocating(s.word) ==> IsDeallocating(s'.word))
  {
    StepKeepsInv(k, s, u, c);
  }

  lemma RetainMove(k: nat, s: Machine, m: Move, t: nat, attempt: bool, n: int)
    requires k >= 2 && Inv(k, s) && t < |s.pcs| && (m.thread == t ==> m.choice.Go? || m.choice.Fail?)
    requires RetainAt(attempt, s.word, s.pcs[t], n)
    ensures var s' := Fire(k, s, m.thread, m.choice);
      Inv(k, s') && if m.thread == t then RetainGoesOn(attempt, s, s', t, n)
                    else t < |s'.pcs| && RetainAt(attempt, s'.word, s'.pcs[t], n)
  {
    if m.thread == t {
      assert LocalOk(k, s, t);
      StepKeepsInv(k, s, t, m.choice);
      RetainOwnStep(k, s, t, m.choice, attempt, n);
    } else {
      OthersMove(k, s, m.thread, m.choice, t);
    }
  }

  lemma {:induction false} RetainRun(k: nat, s: Machine, t: nat, sched: seq<Move>, attempt: bool, n: int)
    requires k >= 2 && Inv(k, s) && t < |s.pcs| && OneCall(sched, t) && RetainAt(attempt, s.word, s.pcs[t], n)
    ensures var s' := Run(k, s, sched);
      && t < |s'.pcs| && RetainAt(attempt, s'.word, s'.pcs[t], n + Own(Retains, k, s, t, sched))
      && Own(Releases, k, s, t, sched) == Own(Wins, k, s, t, sched) == Own(Answers, k, s, t, sched) == 0
    decreases |sched|
  {
    if sched != [] {
      var m := sched[0];
      var s1 := Fire(k, s, m.thread, m.choice);
      RetainMove(k, s, m, t, attempt, n);
      RetainRun(k, s1, t, sched[1..], attempt, if m.thread == t then n + Rise(Retains, s, s1) else n);
    }
  }

  /** sched starts with t calling c, and t starts no other call in it. */
  predicate Calls(s: Machine, t: nat, c: Choice, sched: seq<Move>) {
    t < |s.pcs| && s.pcs[t].Idle? && |sched| > 0 && sched[0] == Move(t, c) && OneCall(sched[1..], t)
  }

  /** A retain that returned retained exactly once, or not at all and the object is deallocating. */
  lemma RetainOutcome(k: nat, n: nat, cls: nat, before: seq<Move>, t: nat, sched: seq<Move>)
    requires k >= 2
    requires var s := Reached(k, n, cls, before);
      Calls(s, t, Retain, sched) && t < |Run(k, s, sched).pcs| && Run(k, s, sched).pcs[t].Idle?
    ensures var s := Reached(k, n, cls, before);
      var retains := Own(Retains, k, s, t, sched);
      && (retains == 1 || (retains == 0 && IsDeallocating(Run(k, s, sched).word)))
      && Own(Releases, k, s, t, sched) == 0
  {
    var s := Reached(k, n, cls, before);
    ReachedOk(k, n, cls, before);
    StepKeepsInv(k, s, t, Retain);
    RetainRun(k, Fire(k, s, t, Retain), t, sched[1..], false, 0);
  }

  /** A weak load that is about to answer has retained exactly once if it answers the object, and not at all if nil. */
  lemma TryOutcome(k: nat, n: nat, cls: nat, before: seq<Move>, t: nat, sched: seq<Move>, ok: bool)
    requires k >= 2
    requires var s := Reached(k, n, cls, before);
      Calls(s, t, TryRetain, sched) && t < |Run(k, s, sched).pcs| && Run(k, s, sched).pcs[t] == Ret(TryHome(ok))
    ensures var s := Reached(k, n, cls, before);
      && Own(Retains, k, s, t, sched) == (if ok then 1 else 0)
      && Own(Releases, k, s, t, sched) == 0
  {
    var s := Reached(k, n, cls, before);
    ReachedOk(k, n, cls, before);
    StepKeepsInv(k, s, t, TryRetain);
    RetainRun(k, Fire(k, s, t, TryRetain), t, sched[1..], true, 0);
  }

  lemma RetainAddsOne(k: nat, s: Machine, t: nat, r: RetPc, c: Choice)
    requires k > 0 && t < |s.pcs|
    ensures FireRetain(k, s, t, r, c).retains >= s.retains
  {}

  lemma ReleaseAddsNone(k: nat, s: Machine, t: nat, l: RelPc, c: Choice)
    requires k > 0 && t < |s.pcs|
    ensures FireRelease(k, s, t, l, c).retains == s.retains
  {}

  lemma RetainsRise(k: nat, s: Machine, t: nat, c: Choice)
    requires k > 0
    ensures Fire(k, s, t, c).retains >= s.retains
  {
    if t < |s.pcs| {
      match s.pcs[t]
      case Ret(r) => RetainAddsOne(k, s, t, r, c);
      case Rel(l) => ReleaseAddsNone(k, s, t, l, c);
      case _ =>
    }
  }

  lemma {:induction false} OwnIsPart(k: nat, s: Machine, t: nat, sched: seq<Move>)
    requires k > 0
    ensures 0 <= Own(Retains, k, s, t, sched) <= Run(k, s, sched).retains - s.retains
    decreases |sched|
  {
    if sched != [] {
      RetainsRise(k, s, sched[0].thread, sched[0].choice);
      OwnIsPart(k, Fire(k, s, sched[0].thread, sched[0].choice), t, sched[1..]);
    }
  }

  /** So a weak load of an object that was deallocating when it was called never answers the object. */
  lemma TryNeverRevives(k: nat, n: nat, cls: nat, before: seq<Move>, t: nat, sched: seq<Move>)
    requires k >= 2
    requires var s := Reached(k, n, cls, before);
      Calls(s, t, TryRetain, sched) && IsDeallocating(s.word) && t < |Run(k, s, sched).pcs|
    ensures Run(k, Reached(k, n, cls, before), sched).pcs[t] != Ret(TryHome(true))
  {
    var s := Reached(k, n, cls, before);
    ReachedOk(k, n, cls, before);
    DeallocatingIsFinal(k, s, sched);
    OwnIsPart(k, s, t, sched);
    if Run(k, s, sched).pcs[t] == Ret(TryHome(true)) { TryOutcome(k, n, cls, before, t, sched, true); }
  }

  // ------------------------------------------------------------------ release

  predicate HasReleased(l: RelPc) { l.RelClear? || l.RelReturn? }

  predicate WillAnswer(l: RelPc) { (l.RelClear? || l.RelReturn?) && l.dealloc }

  /** Where a release is when its own steps have released n times, won wins times and answered true answers times. */
  predicate ReleaseAt(w: Isa, pc: Pc, n: int, wins: int, answers: int) {
    match pc
    case Idle => answers == wins && 0 <= wins <= n && (n == 1 || (n == 0 && IsDeallocating(w)))
    case Rel(l) => answers == 0 && n == (if HasReleased(l) then 1 else 0) && wins == if WillAnswer(l) then 1 else 0
    case _ => false
  }

  predicate ReleaseGoesOn(s: Machine, s': Machine, t: nat, n: int, wins: int, answers: int) {
    && t < |s'.pcs| && Rise(Retains, s, s') == 0
    && ReleaseAt(s'.word, s'.pcs[t], n + Rise(Releases, s, s'),
                 wins + Rise(Wins, s, s'), answers + Rise(Answers, s, s'))
  }

  lemma ReleaseTopStep(k: nat, s: Machine, t: nat, l: RelPc, c: Choice, n: int, wins: int, answers: int)
    requires k >= 2 && t < |s.pcs| && s.pcs[t] == Rel(l) && RelOk(k, s, t, l) && l.RelTop?
    requires ReleaseAt(s.word, s.pcs[t], n, wins, answers)
    ensures ReleaseGoesOn(s, FireRelease(k, s, t, l, c), t, n, wins, answers)
  {}

  lemma ReleaseStoreStep(k: nat, s: Machine, t: nat, l: RelPc, c: Choice, n: int, wins: int, answers: int)
    requires k >= 2 && t < |s.pcs| && s.pcs[t] == Rel(l) && RelOk(k, s, t, l)
    requires l.RelStore? || l.RelStore1? || l.RelStore2?
    requires ReleaseAt(s.word, s.pcs[t], n, wins, answers)
    ensures ReleaseGoesOn(s, FireRelease(k, s, t, l, c), t, n, wins, answers)
  {
    HalfFull(k);
  }

  lemma ReleaseStep(k: nat, s: Machine, t: nat, l: RelPc, c: Choice, n: int, wins: int, answers: int)
    requires k >= 2 && t < |s.pcs| && s.pcs[t] == Rel(l) && RelOk(k, s, t, l)
    requires !l.RelTop? && !l.RelStore? && !l.RelStore1? && !l.RelStore2?
    requires ReleaseAt(s.word, s.pcs[t], n, wins, answers)
    ensures ReleaseGoesOn(s, FireRelease(k, s, t, l, c), t, n, wins, answers)
  {}

  lemma ReleaseOwnStep(k: nat, s: Machine, t: nat, c: Choice, n: int, wins: int, answers: int)
    requires k >= 2 && t < |s.pcs| && LocalOk(k, s, t) && (c.Go? || c.Fail?)
    requires ReleaseAt(s.word, s.pcs[t], n, wins, answers)
    ensures ReleaseGoesOn(s, Fire(k, s, t, c), t, n, wins, answers)
  {
    match s.pcs[t]
    case Idle =>
    case Rel(l) =>
      match l {
        case RelTop(_, _, _) => ReleaseTopStep(k, s, t, l, c, n, wins, answers);
        case RelStore(_, _, _) | RelStore1(_, _) | RelStore2(_, _) => ReleaseStoreStep(k, s, t, l, c, n, wins, answers);
        case _ => ReleaseStep(k, s, t, l, c, n, wins, answers);
      }
  }

  lemma ReleaseMove(k: nat, s: Machine, m: Move, t: nat, n: int, wins: int, answers: int)
    requires k >= 2 && Inv(k, s) && t < |s.pcs| && (m.thread == t ==> m.choice.Go? || m.choice.Fail?)
    requires ReleaseAt(s.word, s.pcs[t], n, wins, answers)
    ensures var s' := Fire(k, s, m.thread, m.choice);
      Inv(k, s') && if m.thread == t then ReleaseGoesOn(s, s', t, n, wins, answers)
                    else t < |s'.pcs| && ReleaseAt(s'.word, s'.pcs[t], n, wins, answers)
  {
    if m.thread == t {
      assert LocalOk(k, s, t);
      StepKeepsInv(k, s, t, m.choice);
      ReleaseOwnStep(k, s, t, m.choice, n, wins, answers);
    } else {
      OthersMove(k, s, m.thread, m.choice, t);
    }
  }

  lemma {:induction false} ReleaseRun(k: nat, s: Machine, t: nat, sched: seq<Move>, n: int, wins: int, answers: int)
    requires k >= 2 && Inv(k, s) && t < |s.pcs| && OneCall(sched, t) && ReleaseAt(s.word, s.pcs[t], n, wins, answers)
    ensures var s' := Run(k, s, sched);
      && t < |s'.pcs| && Own(Retains, k, s, t, sched) == 0
      && ReleaseAt(s'.word, s'.pcs[t], n + Own(Releases, k, s, t, sched),
                   wins + Own(Wins, k, s, t, sched), answers + Own(Answers, k, s, t, sched))
    decreases |sched|
  {
    if sched != [] {
      var m := sched[0];
      var s1 := Fire(k, s, m.thread, m.choice);
      ReleaseMove(k, s, m, t, n, wins, answers);
      if m.thread == t {
        ReleaseRun(k, s1, t, sched[1..],
                   n + Rise(Releases, s, s1), wins + Rise(Wins, s, s1), answers + Rise(Answers, s, s1));
      } else {
        ReleaseRun(k, s1, t, sched[1..], n, wins, answers);
      }
    }
  }

  /**
   * A release that returned released exactly once, or not at all and the object is deallocating; and it
   * answered true exactly when its own store made the object so.
   */
  lemma ReleaseOutcome(k: nat, n: nat, cls: nat, before: seq<Move>, t: nat, sched: seq<Move>)
    requires k >= 2
    requires var s := Reached(k, n, cls, before);
      Calls(s, t, Release, sched) && t < |Run(k, s, sched).pcs| && Run(k, s, sched).pcs[t].Idle?
    ensures var s := Reached(k, n, cls, before);
      var releases, wins := Own(Releases, k, s, t, sched), Own(Wins, k, s, t, sched);
      && (releases == 1 || (releases == 0 && IsDeallocating(Run(k, s, sched).word)))
      && 0 <= wins <= releases && Own(Answers, k, s, t, sched) == wins
      && Own(Retains, k, s, t, sched) == 0
  {
    var s := Reached(k, n, cls, before);
    ReachedOk(k, n, cls, before);
    StepKeepsInv(k, s, t, Release);
    ReleaseRun(k, Fire(k, s, t, Release), t, sched[1..], 0, 0, 0);
  }

  // ------------------------------------------------------------------ retain count

  /** Where a retain count is once it has loaded a word that made the count v. */
  predicate CountAt(s: Machine, pc: Pc, v: int) {
    match pc
    case Idle => true
    case Cnt(CntRead(bits, _)) => bits.extra + (if bits.hasSide then s.table else 0) == v
    case Cnt(CntUnlock(rc, _)) => rc == v
    case Cnt(CntDone(rc, _)) => rc == v
    case _ => false
  }

  lemma {:induction false} CountRun(k: nat, s: Machine, t: nat, sched: seq<Move>, v: int)
    requires k >= 2 && Inv(k, s) && t < |s.pcs| && OneCall(sched, t) && CountAt(s, s.pcs[t], v)
    ensures var s' := Run(k, s, sched); t < |s'.pcs| && CountAt(s', s'.pcs[t], v)
    decreases |sched|
  {
    if sched != [] {
      var m := sched[0];
      StepKeepsInv(k, s, m.thread, m.choice);
      assert LocalOk(k, s, t);
      CountRun(k, Fire(k, s, m.thread, m.choice), t, sched[1..], v);
    }
  }

  /** From its load on, a retain count answers what the word and the table held at the load. */
  lemma CountFromLoad(k: nat, s: Machine, t: nat, sched: seq<Move>, rc: nat, at: int)
    requires k >= 2 && Inv(k, s) && t < |s.pcs| && s.pcs[t] == Cnt(CntLoad)
    requires sched != [] && sched[0].thread == t && OneCall(sched, t)
    requires var s' := Run(k, s, sched); t < |s'.pcs| && s'.pcs[t] == Cnt(CntDone(rc, at))
    ensures rc == s.word.extra + s.table == Balance(s)
  {
    var s1 := Fire(k, s, t, sched[0].choice);
    assert LocalOk(k, s, t);
    StepKeepsInv(k, s, t, sched[0].choice);
    CountRun(k, s1, t, sched[1..], s.word.extra + s.table);
  }

  /** Where the load of t's retain count is in a schedule that takes it to its answer. */
  lemma {:induction false} CountHasLoad(k: nat, s: Machine, t: nat, sched: seq<Move>, rc: nat, at: int) returns (i: nat)
    requires k >= 2 && Inv(k, s) && t < |s.pcs| && (s.pcs[t] == Cnt(CntWait) || s.pcs[t] == Cnt(CntLoad))
    requires OneCall(sched, t)
    requires var s' := Run(k, s, sched); t < |s'.pcs| && s'.pcs[t] == Cnt(CntDone(rc, at))
    ensures i < |sched|
    ensures var l := Run(k, s, sched[..i]); rc == l.word.extra + l.table == Balance(l)
    decreases |sched|
  {
    var m := sched[0];
    assert sched[..0] == [] && Run(k, s, sched[..0]) == s;
    if m.thread == t && s.pcs[t] == Cnt(CntLoad) {
      CountFromLoad(k, s, t, sched, rc, at);
      i := 0;
    } else {
      StepKeepsInv(k, s, m.thread, m.choice);
      var j := CountHasLoad(k, Fire(k, s, m.thread, m.choice), t, sched[1..], rc, at);
      i := j + 1;
      assert sched[..i][0] == m && sched[..i][1..] == sched[1..][..j];
    }
  }

  /** rootRetainCount answers what the count was at some moment of the call. */
  lemma CountOutcome(k: nat, n: nat, cls: nat, before: seq<Move>, t: nat, sched: seq<Move>, rc: nat, at: int)
    returns (i: nat)
    requires k >= 2
    requires var s := Reached(k, n, cls, before);
      && Calls(s, t, RetainCount, sched) && t < |Run(k, s, sched).pcs|
      && Run(k, s, sched).pcs[t] == Cnt(CntDone(rc, at))
    ensures 0 < i < |sched|
    ensures var l := Run(k, Reached(k, n, cls, before), sched[..i]);
      rc == l.word.extra + l.table == 1 + l.retains - l.releases
  {
    var s := Reached(k, n, cls, before);
    ReachedOk(k, n, cls, before);
    StepKeepsInv(k, s, t, RetainCount);
    var j := CountHasLoad(k, Fire(k, s, t, RetainCount), t, sched[1..], rc, at);
    i := j + 1;
    assert sched[..i][0] == sched[0] && sched[..i][1..] == sched[1..][..j];
  }

  /** It is the count at the load and not when the lock was taken: a retain in between is counted. */
  lemma AnswerIsOfTheLoad(k: nat, cls: nat) returns (before: seq<Move>, sched: seq<Move>)
    requires k >= 2
    ensures var s := Reached(k, 2, cls, before);
      var s' := Run(k, s, sched);
      && OneCall(sched, 0) && |s.pcs| == |s'.pcs| == 2
      && s.pcs[0] == Cnt(CntLoad) && s.word.extra + s.table == 1
      && s'.pcs[0] == Cnt(CntDone(2, 2))
  {
    before := [Move(0, RetainCount), Move(0, Go)];
    var s := Reached(k, 2, cls, before);
    TwoMoves(k, Init(2, cls), before);
    assert Fire(k, Init(2, cls), 0, RetainCount).pcs == [Cnt(CntWait), Idle];
    assert s.pcs == [Cnt(CntLoad), Idle] && s.word == Init(2, cls).word && s.table == 0;
    HalfFull(k);
    var retain := QuietRetain(k, s, 1);
    var s1 := Run(k, s, retain);
    var load, rest := [Move(0, Go)], [Move(0, Go), Move(0, Go)];
    var s2 := Fire(k, s1, 0, Go);
    assert Run(k, s1, load) == s2;
    assert s2.pcs == [Cnt(CntRead(s1.word, 2)), Idle];
    TwoMoves(k, s2, rest);
    RunAppend(k, s1, load, rest);
    RunAppend(k, s, retain, load + rest);
    sched := retain + (load + rest);
  }

  // ------------------------------------------------------------------ the flag setters

  /** A setter that is through has its flag set. */
  predicate FlagAt(f: Flag, w: Isa, pc: Pc) {
    match pc
    case Idle => HasFlag(w, f)
    case Flg(f', _) => f' == f
    case _ => false
  }

  lemma FlagOwnStep(s: Machine, t: nat, f: Flag, g: FlagPc, c: Choice)
    requires t < |s.pcs| && s.pcs[t] == Flg(f, g) && FlagOk(s, f, g)
    ensures var s' := FireFlag(s, t, f, g, c); t < |s'.pcs| && FlagAt(f, s'.word, s'.pcs[t])
  {}

  lemma FlagGoesOn(k: nat, s: Machine, u: nat, c: Choice, t: nat, f: Flag)
    requires k >= 2 && Inv(k, s) && t < |s.pcs| && FlagAt(f, s.word, s.pcs[t]) && (u == t ==> c.Go? || c.Fail?)
    ensures var s' := Fire(k, s, u, c); Inv(k, s') && t < |s'.pcs| && FlagAt(f, s'.word, s'.pcs[t])
  {
    StepKeepsInv(k, s, u, c);
    if u == t && s.pcs[t].Flg? {
      assert LocalOk(k, s, t);
      FlagOwnStep(s, t, f, s.pcs[t].g, c);
    }
  }

  lemma {:induction false} FlagRun(k: nat, s: Machine, t: nat, sched: seq<Move>, f: Flag)
    requires k >= 2 && Inv(k, s) && t < |s.pcs| && OneCall(sched, t) && FlagAt(f, s.word, s.pcs[t])
    ensures var s' := Run(k, s, sched); t < |s'.pcs| && FlagAt(f, s'.word, s'.pcs[t])
    decreases |sched|
  {
    if sched != [] {
      var m := sched[0];
      FlagGoesOn(k, s, m.thread, m.choice, t, f);
      FlagRun(k, Fire(k, s, m.thread, m.choice), t, sched[1..], f);
    }
  }

  /** A flag setter that returned has set its flag. */
  lemma FlagOutcome(k: nat, n: nat, cls: nat, before: seq<Move>, t: nat, sched: seq<Move>, f: Flag)
    requires k >= 2
    requires var s := Reached(k, n, cls, before);
      Calls(s, t, SetFlag(f), sched) && t < |Run(k, s, sched).pcs| && Run(k, s, sched).pcs[t].Idle?
    ensures HasFlag(Run(k, Reached(k, n, cls, before), sched).word, f)
  {
    var s := Reached(k, n, cls, before);
    ReachedOk(k, n, cls, before);
    StepKeepsInv(k, s, t, SetFlag(f));
    FlagRun(k, Fire(k, s, t, SetFlag(f)), t, sched[1..], f);
  }

  /** t is not setting f. */
  predicate NotSetting(pc: Pc, f: Flag) { pc.Flg? ==> pc.f != f }

  predicate FlagLeft(s: Machine, s': Machine, t: nat, f: Flag) {
    && t < |s.pcs| && t < |s'.pcs| && s'.pcs == s.pcs[t := s'.pcs[t]] && NotSetting(s'.pcs[t], f)
    && HasFlag(s'.word, f) == HasFlag(s.word, f)
  }

  lemma RetainLeavesFlag(k: nat, s: Machine, t: nat, r: RetPc, c: Choice, f: Flag)
    requires k > 0 && t < |s.pcs| && s.pcs[t] == Ret(r)
    ensures FlagLeft(s, FireRetain(k, s, t, r, c), t, f)
  {}

  lemma ReleaseLeavesFlag(k: nat, s: Machine, t: nat, l: RelPc, c: Choice, f: Flag)
    requires k > 0 && t < |s.pcs| && s.pcs[t] == Rel(l)
    ensures FlagLeft(s, FireRelease(k, s, t, l, c), t, f)
  {}

  lemma FlagStep(k: nat, s: Machine, t: nat, c: Choice, f: Flag)
    requires k > 0 && t < |s.pcs| && c != SetFlag(f) && NotSetting(s.pcs[t], f)
    ensures FlagLeft(s, Fire(k, s, t, c), t, f)
  {
    match s.pcs[t]
    case Ret(r) => RetainLeavesFlag(k, s, t, r, c, f);
    case Rel(l) => ReleaseLeavesFlag(k, s, t, l, c, f);
    case _ =>
  }

  /** Nothing else sets a flag. */
  lemma {:induction false} FlagNeedsSetter(k: nat, s: Machine, sched: seq<Move>, f: Flag)
    requires k > 0 && forall u :: 0 <= u < |s.pcs| ==> NotSetting(s.pcs[u], f)
    requires forall i :: 0 <= i < |sched| ==> sched[i].choice != SetFlag(f)
    ensures HasFlag(Run(k, s, sched).word, f) == HasFlag(s.word, f)
    decreases |sched|
  {
    if sched != [] {
      if sched[0].thread < |s.pcs| { FlagStep(k, s, sched[0].thread, sched[0].choice, f); }
      FlagNeedsSetter(k, Fire(k, s, sched[0].thread, sched[0].choice), sched[1..], f);
    }
  }
}

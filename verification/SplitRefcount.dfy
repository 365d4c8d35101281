/**
 * One nonpointer object's retain count, split between the extra_rc field of its isa word and a side
 * table guarded by one lock. Any number of threads run rootRetain, rootTryRetain, rootRelease,
 * rootRetainCount and the two flag setters, one atomic step at a time.
 *
 * k is the width of extra_rc. A compare-and-swap store may fail for no reason; a failed store
 * reloads the word. Machine's last four fields are history: they are written, never read.
 */
module SplitRefcount {
  import opened Words
  import opened Options

  datatype Isa = Isa(extra: nat, hasSide: bool, assoc: bool, weak: bool, cls: nat)

  predicate IsDeallocating(w: Isa) { w.extra == 0 && !w.hasSide }

  function Full(k: nat): nat { Pow2(k) }

  function Half(k: nat): nat
    requires k > 0
  {
    Pow2(k - 1)
  }

  datatype Carried = Carried(word: Isa, carry: bool)

  /** addc of n counts: the extra_rc field is the top of the word, so the carry is its overflow. */
  function AddCounts(k: nat, w: Isa, n: nat): Carried {
    if w.extra + n >= Full(k) then Carried(w.(extra := w.extra + n - Full(k)), true)
    else Carried(w.(extra := w.extra + n), false)
  }

  /** subc of one count. */
  function SubCount(k: nat, w: Isa): Carried {
    Carried(w.(extra := if w.extra == 0 then Full(k) - 1 else w.extra - 1), w.extra == 0)
  }

  datatype Flag = Assoc | Weak

  predicate HasFlag(w: Isa, f: Flag) { if f.Assoc? then w.assoc else w.weak }

  function WithFlag(w: Isa, f: Flag): Isa { if f.Assoc? then w.(assoc := true) else w.(weak := true) }

  /** What sidetable_subExtraRC_nolock reports. */
  datatype Borrow = Borrow(borrowed: nat, remaining: nat)

  /**
   * Inside rootRetain. attempt: called for a weak load, whose caller already holds the table lock.
   * full: the RRVariant::Full re-entry. locked: the local sideTableLocked. seen: the local oldisa.
   */
  datatype RetPc =
    | RetLoad(full: bool, attempt: bool)
    | RetTop(full: bool, attempt: bool, seen: Isa, locked: bool)
    | RetWait(seen: Isa)
    | RetStore(full: bool, attempt: bool, seen: Isa, locked: bool)
    | RetAdd(attempt: bool)
    | RetUnlock
    | TryWait
    | TryHome(ok: bool)
    | TryLost

  /** Inside rootRelease. */
  datatype RelPc =
    | RelLoad(full: bool)
    | RelTop(full: bool, seen: Isa, locked: bool)
    | RelStore(full: bool, seen: Isa, locked: bool)
    | RelWait
    | RelReload
    | RelSub(seen: Isa)
    | RelStore1(seen: Isa, b: Borrow)
    | RelStore2(seen: Isa, b: Borrow)
    | RelPutBack(b: Borrow)
    | RelClear(dealloc: bool)
    | RelEmpty
    | RelReturn(locked: bool, dealloc: bool)

  /** Inside rootRetainCount; at is what the count was when the word was loaded. */
  datatype CntPc =
    | CntWait | CntLoad | CntRead(bits: Isa, at: int) | CntUnlock(rc: nat, at: int) | CntDone(rc: nat, at: int)

  /** Inside setHasAssociatedObjects or setWeaklyReferenced_nolock. */
  datatype FlagPc = FlagLoad | FlagStore(seen: Isa) | FlagDone

  datatype Pc = Idle | Ret(r: RetPc) | Rel(l: RelPc) | Cnt(n: CntPc) | Flg(f: Flag, g: FlagPc)

  datatype Machine = Machine(
    word: Isa, table: nat, lock: Option<nat>, pcs: seq<Pc>,
    retains: nat, releases: nat, winner: Option<nat>, trueReturns: nat)

  /** What the scheduler asks of a thread: start a call when idle; else take a step, or fail a store. */
  datatype Choice = Retain | TryRetain | Release | RetainCount | SetFlag(flag: Flag) | Go | Fail

  /** The count callers should see: one for the creator, plus what took effect since. */
  function Balance(s: Machine): int { 1 + s.retains - s.releases }

  function Goto(s: Machine, t: nat, pc: Pc): Machine
    requires t < |s.pcs|
  {
    s.(pcs := s.pcs[t := pc])
  }

  function ToRet(s: Machine, t: nat, r: RetPc): Machine
    requires t < |s.pcs|
  {
    Goto(s, t, Ret(r))
  }

  function ToRel(s: Machine, t: nat, l: RelPc): Machine
    requires t < |s.pcs|
  {
    Goto(s, t, Rel(l))
  }

  /** initIsa: extra_rc is 1 and nothing is in the side table. */
  function Init(n: nat, cls: nat): Machine {
    Machine(Isa(1, false, false, false, cls), 0, None, seq(n, _ => Idle), 0, 0, None, 0)
  }

  function Begin(s: Machine, t: nat, c: Choice): Machine
    requires t < |s.pcs|
  {
    match c
    case Retain => ToRet(s, t, RetLoad(false, false))
    case TryRetain => ToRet(s, t, TryWait)
    case Release => ToRel(s, t, RelLoad(false))
    case RetainCount => Goto(s, t, Cnt(CntWait))
    case SetFlag(f) => Goto(s, t, Flg(f, FlagLoad))
    case Go => s
    case Fail => s
  }

  /** sidetable_lock: blocks, that is does nothing, while the lock is taken. */
  function Acquire(s: Machine, t: nat, pc: Pc): Machine
    requires t < |s.pcs|
  {
    if s.lock.None? then Goto(s.(lock := Some(t)), t, pc) else s
  }

  function Unlock(s: Machine, locked: bool): Machine {
    if locked then s.(lock := None) else s
  }

  function FireRetain(k: nat, s: Machine, t: nat, r: RetPc, c: Choice): Machine
    requires k > 0 && t < |s.pcs|
  {
    match r
    case RetLoad(full, attempt) => ToRet(s, t, RetTop(full, attempt, s.word, false))
    case RetTop(full, attempt, seen, locked) =>
      if IsDeallocating(seen) then
        // the table lock is given back whenever sideTableLocked is set, also for a weak load
        Goto(Unlock(s, locked), t,
             if !attempt then Idle else if locked then Ret(TryLost) else Ret(TryHome(false)))
      else if AddCounts(k, seen, 1).carry then
        if !full then ToRet(s, t, RetLoad(true, attempt))
        else if !attempt && !locked then ToRet(s, t, RetWait(seen))
        else ToRet(s, t, RetStore(full, attempt, seen, true))
      else ToRet(s, t, RetStore(full, attempt, seen, locked))
    case RetWait(seen) => Acquire(s, t, Ret(RetStore(true, false, seen, true)))
    case RetStore(full, attempt, seen, locked) =>
      if c.Fail? || s.word != seen then ToRet(s, t, RetTop(full, attempt, s.word, locked))
      else
        var stored := s.(retains := s.retains + 1);
        if AddCounts(k, seen, 1).carry then
          ToRet(stored.(word := seen.(extra := Half(k), hasSide := true)), t, RetAdd(attempt))
        else
          Goto(stored.(word := AddCounts(k, seen, 1).word), t,
               if attempt then Ret(TryHome(true)) else if locked then Ret(RetUnlock) else Idle)
    case RetAdd(attempt) =>
      ToRet(s.(table := s.table + Half(k)), t, if attempt then TryHome(true) else RetUnlock)
    case RetUnlock => Goto(Unlock(s, true), t, Idle)
    case TryWait => Acquire(s, t, Ret(RetLoad(false, true)))
    case TryHome(_) => Goto(Unlock(s, true), t, Idle)
    case TryLost => s                       // the caller's unlock of a lock it no longer holds aborts
  }

  function FireRelease(k: nat, s: Machine, t: nat, l: RelPc, c: Choice): Machine
    requires k > 0 && t < |s.pcs|
  {
    match l
    case RelLoad(full) => ToRel(s, t, RelTop(full, s.word, false))
    case RelTop(full, seen, locked) =>
      if IsDeallocating(seen) then Goto(Unlock(s, locked), t, Idle)
      else if !SubCount(k, seen).carry then ToRel(s, t, RelStore(full, seen, locked))
      else if !full then ToRel(s, t, RelLoad(true))
      else if !locked then ToRel(s, t, RelWait)
      else ToRel(s, t, RelSub(seen))
    case RelStore(full, seen, locked) =>
      if c.Fail? || s.word != seen then ToRel(s, t, RelTop(full, s.word, locked))
      else
        var next := SubCount(k, seen).word;
        var did := IsDeallocating(next);
        ToRel(s.(word := next, releases := s.releases + 1, winner := if did then Some(t) else s.winner), t,
              RelReturn(locked, did))
    case RelWait => Acquire(s, t, Rel(RelReload))
    case RelReload => ToRel(s, t, RelTop(true, s.word, true))
    case RelSub(seen) =>
      var taken := if s.table < Half(k) then s.table else Half(k);
      var left := s.table - taken;
      ToRel(s.(table := left), t, if taken > 0 then RelStore1(seen, Borrow(taken, left)) else RelEmpty)
    case RelStore1(seen, b) =>
      if c.Fail? || s.word != seen then ToRel(s, t, RelStore2(s.word, b))
      else ToRel(s.(word := FirstBorrowWord(seen, b), releases := s.releases + 1), t,
                 if b.remaining == 0 then RelClear(false) else RelReturn(true, false))
    case RelStore2(seen, b) =>
      if AddCounts(k, seen, AfterRelease(b)).carry || c.Fail? || s.word != seen then ToRel(s, t, RelPutBack(b))
      else
        var next := SecondBorrowWord(k, seen, b);
        var did := IsDeallocating(next);
        ToRel(s.(word := next, releases := s.releases + 1, winner := if did then Some(t) else s.winner), t,
              if b.remaining == 0 then RelClear(did) else RelReturn(true, did))
    case RelPutBack(b) => ToRel(s.(table := s.table + b.borrowed), t, RelReload)
    case RelClear(d) => ToRel(s.(table := 0), t, RelReturn(true, d))
    case RelEmpty => ToRel(s, t, RelReturn(true, true))
    case RelReturn(locked, d) =>
      Goto(Unlock(s, locked).(trueReturns := s.trueReturns + if d then 1 else 0), t, Idle)
  }

  /** The borrowed counts less the one being released. */
  function AfterRelease(b: Borrow): nat { if b.borrowed == 0 then 0 else b.borrowed - 1 }

  /** The word the first borrow store writes, over a word whose extra_rc is zero. */
  function FirstBorrowWord(seen: Isa, b: Borrow): Isa {
    seen.(extra := AfterRelease(b), hasSide := b.remaining != 0)
  }

  /** The word the second-chance store writes, over a word that changed meanwhile. */
  function SecondBorrowWord(k: nat, seen: Isa, b: Borrow): Isa {
    AddCounts(k, seen, AfterRelease(b)).word.(hasSide := b.remaining != 0)
  }

  function FireCount(s: Machine, t: nat, n: CntPc): Machine
    requires t < |s.pcs|
  {
    match n
    case CntWait => Acquire(s, t, Cnt(CntLoad))
    case CntLoad => Goto(s, t, Cnt(CntRead(s.word, Balance(s))))
    case CntRead(bits, at) => Goto(s, t, Cnt(CntUnlock(bits.extra + if bits.hasSide then s.table else 0, at)))
    case CntUnlock(rc, at) => Goto(Unlock(s, true), t, Cnt(CntDone(rc, at)))
    case CntDone(_, _) => Goto(s, t, Idle)
  }

  function FireFlag(s: Machine, t: nat, f: Flag, g: FlagPc, c: Choice): Machine
    requires t < |s.pcs|
  {
    match g
    case FlagLoad => Goto(s, t, Flg(f, FlagStore(s.word)))
    case FlagStore(seen) =>
      if HasFlag(seen, f) then Goto(s, t, Flg(f, FlagDone))
      else if c.Fail? || s.word != seen then Goto(s, t, Flg(f, FlagStore(s.word)))
      else Goto(s.(word := WithFlag(seen, f)), t, Flg(f, FlagDone))
    case FlagDone => Goto(s, t, Idle)
  }

  /** One atomic step of thread t; a thread number out of range changes nothing. */
  function Fire(k: nat, s: Machine, t: nat, c: Choice): Machine
    requires k > 0
  {
    if t >= |s.pcs| then s
    else match s.pcs[t]
      case Idle => Begin(s, t, c)
      case Ret(r) => FireRetain(k, s, t, r, c)
      case Rel(l) => FireRelease(k, s, t, l, c)
      case Cnt(n) => FireCount(s, t, n)
      case Flg(f, g) => FireFlag(s, t, f, g, c)
  }

  datatype Move = Move(thread: nat, choice: Choice)

  /** The state after a schedule. */
  function Run(k: nat, s: Machine, sched: seq<Move>): Machine
    requires k > 0
    decreases |sched|
  {
    if sched == [] then s
    else Run(k, Fire(k, s, sched[0].thread, sched[0].choice), sched[1..])
  }
}

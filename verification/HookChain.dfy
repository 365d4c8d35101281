/**
 * ChainedHookFunction: any number of threads each install a hook of their own, keeping the value it
 * replaced in a variable of their own. Thread i installs hooks[i].
 */
module HookChain {

  /** Inside set: before the load, with the old variable to write, with the exchange to try, done. */
  datatype Pc = Start | Loaded(seen: nat) | Written(seen: nat) | Done

  /** installed is history: the threads whose exchange succeeded, in order. */
  datatype Machine = Machine(hook: nat, vars: seq<nat>, pcs: seq<Pc>, installed: seq<nat>)

  /** hooks and original are what the threads install and what was there first. */
  ghost predicate Distinct(hooks: seq<nat>, original: nat) {
    && (forall i, j :: 0 <= i < j < |hooks| ==> hooks[i] != hooks[j])
    && original !in hooks
  }

  function Init(hooks: seq<nat>, original: nat, vars: seq<nat>): Machine {
    Machine(original, vars, seq(|hooks|, _ => Start), [])
  }

  /** One atomic step of thread t; fail makes the weak exchange fail for no reason. */
  function Fire(hooks: seq<nat>, s: Machine, t: nat, fail: bool): Machine {
    if t >= |hooks| || |s.pcs| != |hooks| || |s.vars| != |hooks| then s
    else match s.pcs[t]
      case Start => s.(pcs := s.pcs[t := Loaded(s.hook)])
      case Loaded(seen) => s.(vars := s.vars[t := seen], pcs := s.pcs[t := Written(seen)])
      case Written(seen) =>
        if fail || s.hook != seen then s.(pcs := s.pcs[t := Loaded(s.hook)])
        else s.(hook := hooks[t], pcs := s.pcs[t := Done], installed := s.installed + [t])
      case Done => s
  }

  datatype Move = Move(thread: nat, fail: bool)

  function Run(hooks: seq<nat>, s: Machine, sched: seq<Move>): Machine
    decreases |sched|
  {
    if sched == [] then s else Run(hooks, Fire(hooks, s, sched[0].thread, sched[0].fail), sched[1..])
  }

  /** The value the k-th install left in the hook; the original before any. */
  function After(hooks: seq<nat>, original: nat, installed: seq<nat>, k: nat): nat
    requires k <= |installed| && forall i :: 0 <= i < |installed| ==> installed[i] < |hooks|
  {
    if k == 0 then original else hooks[installed[k - 1]]
  }

  /** installed lists, without repeats, the threads that are done. */
  ghost predicate HistoryOk(pcs: seq<Pc>, installed: seq<nat>) {
    && (forall k :: 0 <= k < |installed| ==> installed[k] < |pcs| && pcs[installed[k]].Done?)
    && (forall j, k :: 0 <= j < k < |installed| ==> installed[j] != installed[k])
    && (forall t :: 0 <= t < |pcs| && pcs[t].Done? ==> t in installed)
  }

  /** Each thread in installed keeps what the one before it put in the hook. */
  ghost predicate LinksOk(hooks: seq<nat>, original: nat, vars: seq<nat>, installed: seq<nat>) {
    && (forall k :: 0 <= k < |installed| ==> installed[k] < |hooks| && installed[k] < |vars|)
    && (forall k :: 0 <= k < |installed| ==> vars[installed[k]] == After(hooks, original, installed, k))
  }

  ghost predicate Inv(hooks: seq<nat>, original: nat, s: Machine) {
    && |s.vars| == |hooks| == |s.pcs|
    && HistoryOk(s.pcs, s.installed) && LinksOk(hooks, original, s.vars, s.installed)
    && s.hook == After(hooks, original, s.installed, |s.installed|)
    && (forall t :: 0 <= t < |s.pcs| && s.pcs[t].Written? ==> s.vars[t] == s.pcs[t].seen)
  }

  /** Later installs only add to the history, and never touch a variable already linked. */
  ghost predicate Extends(s: Machine, s': Machine) {
    && |s.vars| == |s'.vars| && s.installed <= s'.installed
    && forall k :: 0 <= k < |s.installed| ==>
         s.installed[k] < |s.vars| && s'.vars[s.installed[k]] == s.vars[s.installed[k]]
  }

  lemma HistoryKept(pcs: seq<Pc>, installed: seq<nat>, t: nat, pc: Pc)
    requires HistoryOk(pcs, installed) && t < |pcs| && !pcs[t].Done? && !pc.Done?
    ensures HistoryOk(pcs[t := pc], installed) && t !in installed
  {}

  lemma HistoryGrows(pcs: seq<Pc>, installed: seq<nat>, t: nat)
    requires HistoryOk(pcs, installed) && t < |pcs| && !pcs[t].Done?
    ensures HistoryOk(pcs[t := Done], installed + [t]) && t !in installed
  {}

  lemma LinksKept(hooks: seq<nat>, original: nat, vars: seq<nat>, installed: seq<nat>, t: nat, v: nat)
    requires LinksOk(hooks, original, vars, installed) && t < |vars| && t !in installed
    ensures LinksOk(hooks, original, vars[t := v], installed)
  {}

  lemma LinksGrow(hooks: seq<nat>, original: nat, vars: seq<nat>, installed: seq<nat>, t: nat)
    requires LinksOk(hooks, original, vars, installed) && t < |vars| && t < |hooks|
    requires vars[t] == After(hooks, original, installed, |installed|)
    ensures LinksOk(hooks, original, vars, installed + [t])
  {}

  lemma InstallKeepsInv(hooks: seq<nat>, original: nat, s: Machine, t: nat)
    requires Inv(hooks, original, s) && t < |hooks| && s.pcs[t].Written? && s.hook == s.pcs[t].seen
    ensures Inv(hooks, original, Fire(hooks, s, t, false)) && Extends(s, Fire(hooks, s, t, false))
  {
    HistoryGrows(s.pcs, s.installed, t);
    LinksGrow(hooks, original, s.vars, s.installed, t);
  }

  lemma OtherStepKeepsInv(hooks: seq<nat>, original: nat, s: Machine, t: nat, pc: Pc, v: nat)
    requires Inv(hooks, original, s) && t < |hooks| && !s.pcs[t].Done? && !pc.Done? && (pc.Written? ==> pc.seen == v)
    ensures var s' := s.(pcs := s.pcs[t := pc], vars := s.vars[t := v]);
      Inv(hooks, original, s') && Extends(s, s')
  {
    HistoryKept(s.pcs, s.installed, t, pc);
    LinksKept(hooks, original, s.vars, s.installed, t, v);
  }

  lemma StepKeepsInv(hooks: seq<nat>, original: nat, s: Machine, t: nat, fail: bool)
    requires Inv(hooks, original, s)
    ensures Inv(hooks, original, Fire(hooks, s, t, fail)) && Extends(s, Fire(hooks, s, t, fail))
  {
    if t < |hooks| && !s.pcs[t].Done? {
      if s.pcs[t].Written? && !fail && s.hook == s.pcs[t].seen {
        InstallKeepsInv(hooks, original, s, t);
      } else {
        var s' := Fire(hooks, s, t, fail);
        OtherStepKeepsInv(hooks, original, s, t, s'.pcs[t], s'.vars[t]);
        assert s'.vars == s.vars[t := s'.vars[t]];
      }
    }
  }

  lemma {:induction false} RunKeepsInv(hooks: seq<nat>, original: nat, s: Machine, sched: seq<Move>)
    requires Inv(hooks, original, s)
    ensures Inv(hooks, original, Run(hooks, s, sched)) && Extends(s, Run(hooks, s, sched))
    decreases |sched|
  {
    if sched != [] {
      var s1 := Fire(hooks, s, sched[0].thread, sched[0].fail);
      StepKeepsInv(hooks, original, s, sched[0].thread, sched[0].fail);
      RunKeepsInv(hooks, original, s1, sched[1..]);
    }
  }

  /** The installed hooks, latest first, and then the original. */
  function LatestFirst(hooks: seq<nat>, original: nat, installed: seq<nat>): seq<nat>
    requires forall i :: 0 <= i < |installed| ==> installed[i] < |hooks|
  {
    if installed == [] then [original]
    else [hooks[installed[|installed| - 1]]] + LatestFirst(hooks, original, installed[..|installed| - 1])
  }

  /** Calling hook path[0], and from each hook the one its variable holds, goes along path and ends at the original. */
  ghost predicate Follows(hooks: seq<nat>, original: nat, vars: seq<nat>, path: seq<nat>) {
    && |path| > 0 && path[|path| - 1] == original
    && forall k :: 0 <= k < |path| - 1 ==> Links(hooks, vars, path[k], path[k + 1])
  }

  /** Whoever installed f keeps g in its variable. */
  ghost predicate Links(hooks: seq<nat>, vars: seq<nat>, f: nat, g: nat) {
    exists t :: 0 <= t < |hooks| && t < |vars| && hooks[t] == f && vars[t] == g
  }

  lemma {:induction false} ChainFollows(hooks: seq<nat>, original: nat, vars: seq<nat>, installed: seq<nat>)
    requires |vars| == |hooks| && forall i :: 0 <= i < |installed| ==> installed[i] < |hooks|
    requires forall k :: 0 <= k < |installed| ==> vars[installed[k]] == After(hooks, original, installed, k)
    ensures Follows(hooks, original, vars, LatestFirst(hooks, original, installed))
    ensures LatestFirst(hooks, original, installed)[0] == After(hooks, original, installed, |installed|)
    ensures |LatestFirst(hooks, original, installed)| == |installed| + 1
    decreases |installed|
  {
    if installed != [] {
      var n := |installed| - 1;
      var rest := installed[..n];
      forall k | 0 <= k < n ensures vars[rest[k]] == After(hooks, original, rest, k) {
        assert rest[k] == installed[k];
      }
      ChainFollows(hooks, original, vars, rest);
      assert After(hooks, original, rest, n) == After(hooks, original, installed, n);
      var path := LatestFirst(hooks, original, installed);
      forall k | 0 <= k < |path| - 1 ensures Links(hooks, vars, path[k], path[k + 1]) {
        if k == 0 {
          assert hooks[installed[n]] == path[0] && vars[installed[n]] == path[1];
        } else {
          assert path[k] == LatestFirst(hooks, original, rest)[k - 1];
        }
      }
    }
  }

  /** Nobody installed the original, so a path stops there and nowhere else. */
  lemma PathEnds(hooks: seq<nat>, original: nat, vars: seq<nat>, p: seq<nat>)
    requires Distinct(hooks, original) && Follows(hooks, original, vars, p)
    ensures |p| == 1 <==> p[0] == original
    ensures |p| > 1 ==> Links(hooks, vars, p[0], p[1]) && Follows(hooks, original, vars, p[1..])
  {}

  /** With hooks all different there is one path from a given hook, so following cannot do anything else. */
  lemma {:induction false} OnePath(hooks: seq<nat>, original: nat, vars: seq<nat>, p: seq<nat>, q: seq<nat>)
    requires Distinct(hooks, original) && Follows(hooks, original, vars, p) && Follows(hooks, original, vars, q)
    requires p[0] == q[0]
    ensures p == q
    decreases |p|
  {
    PathEnds(hooks, original, vars, p);
    PathEnds(hooks, original, vars, q);
    if |p| > 1 {
      OnePath(hooks, original, vars, p[1..], q[1..]);
      assert p == [p[0]] + p[1..] && q == [q[0]] + q[1..];
    }
  }

  lemma OnlyPath(hooks: seq<nat>, original: nat, vars: seq<nat>, q: seq<nat>)
    requires Distinct(hooks, original) && Follows(hooks, original, vars, q)
    ensures forall p :: Follows(hooks, original, vars, p) && p[0] == q[0] ==> p == q
  {
    forall p | Follows(hooks, original, vars, p) && p[0] == q[0] ensures p == q {
      OnePath(hooks, original, vars, p, q);
    }
  }

  lemma {:induction false} LatestFirstAt(hooks: seq<nat>, original: nat, installed: seq<nat>, j: nat)
    requires forall i :: 0 <= i < |installed| ==> installed[i] < |hooks|
    requires j < |installed|
    ensures |LatestFirst(hooks, original, installed)| == |installed| + 1
    ensures LatestFirst(hooks, original, installed)[j] == hooks[installed[|installed| - 1 - j]]
    decreases |installed|
  {
    var rest := installed[..|installed| - 1];
    if rest != [] { LatestFirstAt(hooks, original, rest, if j == 0 then 0 else j - 1); }
  }

  /**
   * At every moment, following the variables from the installed hook visits each installed hook
   * exactly once, latest first, and ends at the original.
   */
  lemma ChainAtEveryState(hooks: seq<nat>, original: nat, vars: seq<nat>, sched: seq<Move>)
    requires |vars| == |hooks| && Distinct(hooks, original)
    ensures var s := Run(hooks, Init(hooks, original, vars), sched);
      && (forall t :: t in s.installed <==> 0 <= t < |s.pcs| && s.pcs[t].Done?)
      && (forall i :: 0 <= i < |s.installed| ==> s.installed[i] < |hooks|)
      && (forall i, j :: 0 <= i < j < |s.installed| ==> s.installed[i] != s.installed[j])
      && LatestFirst(hooks, original, s.installed)[0] == s.hook
      && Follows(hooks, original, s.vars, LatestFirst(hooks, original, s.installed))
      && forall p :: Follows(hooks, original, s.vars, p) && p[0] == s.hook ==>
           p == LatestFirst(hooks, original, s.installed)
  {
    var s := Run(hooks, Init(hooks, original, vars), sched);
    RunKeepsInv(hooks, original, Init(hooks, original, vars), sched);
    ChainFollows(hooks, original, s.vars, s.installed);
    OnlyPath(hooks, original, s.vars, LatestFirst(hooks, original, s.installed));
  }

  /**
   * What get returned stays callable: in every later state the links below it are the ones that were
   * already written when it was returned.
   */
  lemma GetStaysLinked(hooks: seq<nat>, original: nat, vars: seq<nat>, sched: seq<Move>, more: seq<Move>)
    requires |vars| == |hooks|
    ensures var s := Run(hooks, Init(hooks, original, vars), sched);
      var s' := Run(hooks, s, more);
      && (forall i :: 0 <= i < |s.installed| ==> s.installed[i] < |hooks|)
      && LatestFirst(hooks, original, s.installed)[0] == s.hook
      && Follows(hooks, original, s.vars, LatestFirst(hooks, original, s.installed))
      && Follows(hooks, original, s'.vars, LatestFirst(hooks, original, s.installed))
  {
    var s := Run(hooks, Init(hooks, original, vars), sched);
    RunKeepsInv(hooks, original, Init(hooks, original, vars), sched);
    RunKeepsInv(hooks, original, s, more);
    var s' := Run(hooks, s, more);
    ChainFollows(hooks, original, s.vars, s.installed);
    forall k | 0 <= k < |s.installed| ensures s'.vars[s.installed[k]] == After(hooks, original, s.installed, k) {}
    ChainFollows(hooks, original, s'.vars, s.installed);
  }

  /** n steps of t and of nobody else, none failing for no reason. */
  function Alone(t: nat, n: nat): seq<Move> { if n == 0 then [] else [Move(t, false)] + Alone(t, n - 1) }

  lemma AloneFirst(hooks: seq<nat>, s: Machine, t: nat, n: nat)
    requires n > 0
    ensures Run(hooks, s, Alone(t, n)) == Run(hooks, Fire(hooks, s, t, false), Alone(t, n - 1))
  {
    assert Alone(t, n)[0] == Move(t, false) && Alone(t, n)[1..] == Alone(t, n - 1);
  }

  /** What set leaves: the new hook in place, the one it replaced in the caller's variable, and nothing else changed. */
  function AfterSet(hooks: seq<nat>, s: Machine, t: nat): Machine
    requires t < |hooks| && |s.pcs| == |hooks| == |s.vars|
  {
    Machine(hooks[t], s.vars[t := s.hook], s.pcs[t := Done], s.installed + [t])
  }

  lemma {:induction false} DoneStays(hooks: seq<nat>, s: Machine, t: nat, n: nat)
    requires t < |hooks| && |s.pcs| == |hooks| && s.pcs[t].Done?
    ensures Run(hooks, s, Alone(t, n)) == s
  {
    if n > 0 {
      AloneFirst(hooks, s, t, n);
      DoneStays(hooks, s, t, n - 1);
    }
  }

  /** From a load of the hook as it is, two more steps complete it. */
  lemma LoadedCompletes(hooks: seq<nat>, s: Machine, t: nat, n: nat)
    requires t < |hooks| && |s.pcs| == |hooks| == |s.vars| && s.pcs[t] == Loaded(s.hook) && n >= 2
    ensures Run(hooks, s, Alone(t, n)) == AfterSet(hooks, s, t)
  {
    var s1 := Fire(hooks, s, t, false);
    AloneFirst(hooks, s, t, n);
    AloneFirst(hooks, s1, t, n - 1);
    assert s.pcs[t := Written(s.hook)][t := Done] == s.pcs[t := Done];
    DoneStays(hooks, AfterSet(hooks, s, t), t, n - 2);
  }

  lemma WrittenCompletes(hooks: seq<nat>, s: Machine, t: nat, n: nat)
    requires t < |hooks| && |s.pcs| == |hooks| == |s.vars| && s.pcs[t].Written? && s.vars[t] == s.pcs[t].seen && n >= 3
    ensures Run(hooks, s, Alone(t, n)) == AfterSet(hooks, s, t)
  {
    var s1 := Fire(hooks, s, t, false);
    AloneFirst(hooks, s, t, n);
    if s.hook == s.pcs[t].seen {
      assert s.vars[t := s.hook] == s.vars;
      DoneStays(hooks, s1, t, n - 1);
    } else {
      assert s.pcs[t := Loaded(s.hook)][t := Done] == s.pcs[t := Done];
      LoadedCompletes(hooks, s1, t, n - 1);
    }
  }

  lemma FirstStepsComplete(hooks: seq<nat>, s: Machine, t: nat)
    requires t < |hooks| && |s.pcs| == |hooks| == |s.vars| && (s.pcs[t].Start? || s.pcs[t].Loaded?)
    ensures Run(hooks, s, Alone(t, 4)) == AfterSet(hooks, s, t)
  {
    var s1 := Fire(hooks, s, t, false);
    AloneFirst(hooks, s, t, 4);
    assert s.pcs[t := s1.pcs[t]][t := Done] == s.pcs[t := Done];
    if s.pcs[t].Start? {
      LoadedCompletes(hooks, s1, t, 3);
    } else {
      assert s.vars[t := s1.vars[t]][t := s.hook] == s.vars[t := s.hook];
      WrittenCompletes(hooks, s1, t, 3);
    }
  }

  /** In every reachable state a set that is left alone completes within four steps, and does just that. */
  lemma SetCompletes(hooks: seq<nat>, original: nat, vars: seq<nat>, sched: seq<Move>, t: nat)
    requires |vars| == |hooks| && t < |hooks|
    requires var s := Run(hooks, Init(hooks, original, vars), sched); t < |s.pcs| && !s.pcs[t].Done?
    ensures var s := Run(hooks, Init(hooks, original, vars), sched);
      && |s.pcs| == |hooks| == |s.vars|
      && Run(hooks, s, Alone(t, 4)) == AfterSet(hooks, s, t)
  {
    var s := Run(hooks, Init(hooks, original, vars), sched);
    RunKeepsInv(hooks, original, Init(hooks, original, vars), sched);
    if s.pcs[t].Written? { WrittenCompletes(hooks, s, t, 4); } else { FirstStepsComplete(hooks, s, t); }
  }
}

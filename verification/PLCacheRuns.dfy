/** Runs of cache calls: the list is in order of last use, so what a smaller limit keeps is what was used last. */
module PLCacheRuns {
  import opened Netinfo
  import opened Options
  import opened PLCaches

  function PlaceIn<T(==)>(s: seq<T>, e: T): (k: nat)
    requires e in s
    ensures k < |s| && s[k] == e
  {
    if s[0] == e then 0 else 1 + PlaceIn(s[1..], e)
  }

  /** e moved to the front, or put there. */
  function Used<T(==)>(s: seq<T>, e: T): seq<T> {
    if e in s then MovedToFront(s, PlaceIn(s, e)) else [e] + s
  }

  function UsedAll<T(==)>(s: seq<T>, uses: seq<T>): seq<T> {
    if uses == [] then s else Used(UsedAll(s, uses[..|uses| - 1]), uses[|uses| - 1])
  }

  /** When e was last used: its number among the uses; before them all, in the order of start, if never. */
  function LastUse<T(==)>(start: seq<T>, uses: seq<T>, e: T): int {
    if uses == [] then 0 - (if e in start then PlaceIn(start, e) else |start|)
    else if uses[|uses| - 1] == e then |uses|
    else LastUse(start, uses[..|uses| - 1], e)
  }

  lemma {:induction false} LastUseBound<T>(start: seq<T>, uses: seq<T>, e: T)
    ensures LastUse(start, uses, e) <= |uses|
    decreases |uses|
  {
    if uses != [] { LastUseBound(start, uses[..|uses| - 1], e); }
  }

  /** s is in order of last use, latest first. */
  ghost predicate LatestFirst<T>(start: seq<T>, uses: seq<T>, s: seq<T>) {
    forall i, j :: 0 <= i < j < |s| ==> LastUse(start, uses, s[i]) > LastUse(start, uses, s[j])
  }

  lemma {:induction false} PlaceIs<T>(s: seq<T>, k: nat)
    requires NoRepeats(s) && k < |s|
    ensures PlaceIn(s, s[k]) == k
  {
    if k > 0 {
      assert s[1..][k - 1] == s[k] && s[0] != s[k];
      forall i, j | 0 <= i < j < |s[1..]| ensures s[1..][i] != s[1..][j] { assert s[i + 1] != s[j + 1]; }
      PlaceIs(s[1..], k - 1);
    }
  }

  lemma StartLatestFirst<T>(start: seq<T>)
    requires NoRepeats(start)
    ensures LatestFirst(start, [], start)
  {
    forall i, j | 0 <= i < j < |start| ensures LastUse(start, [], start[i]) > LastUse(start, [], start[j]) {
      PlaceIs(start, i);
      PlaceIs(start, j);
    }
  }

  lemma DeletedHas<T>(s: seq<T>, k: nat, x: T)
    requires NoRepeats(s) && k < |s|
    ensures x in Deleted(s, k) <==> x in s && x != s[k]
  {
    NoRepeatsDeleted(s, k);
    if x in s && x != s[k] {
      var i :| 0 <= i < |s| && s[i] == x;
      assert Deleted(s, k)[if i < k then i else i - 1] == x;
    }
  }

  /** Where the elements of Used(s, e) come from: the front one is e, the others are s without e, in order. */
  lemma UsedShape<T>(s: seq<T>, e: T) returns (rest: seq<T>)
    requires NoRepeats(s)
    ensures Used(s, e) == [e] + rest && NoRepeats(rest) && e !in rest
    ensures forall x :: x in rest <==> x in s && x != e
    ensures if e in s then rest == Deleted(s, PlaceIn(s, e)) else rest == s
  {
    rest := s;
    if e in s {
      var k := PlaceIn(s, e);
      rest := Deleted(s, k);
      NoRepeatsDeleted(s, k);
      forall x ensures x in rest <==> x in s && x != e { DeletedHas(s, k, x); }
    }
  }

  lemma DeletedLatestFirst<T>(start: seq<T>, uses: seq<T>, s: seq<T>, k: nat)
    requires LatestFirst(start, uses, s) && k < |s|
    ensures LatestFirst(start, uses, Deleted(s, k))
  {
    var r := Deleted(s, k);
    forall i, j | 0 <= i < j < |r| ensures LastUse(start, uses, r[i]) > LastUse(start, uses, r[j]) {
      assert r[i] == s[if i < k then i else i + 1] && r[j] == s[if j < k then j else j + 1];
    }
  }

  /** Using e makes it the latest and leaves the others as they were. */
  lemma UseKeepsOrder<T>(start: seq<T>, uses: seq<T>, s: seq<T>, e: T)
    requires NoRepeats(s) && LatestFirst(start, uses, s)
    ensures LatestFirst(start, uses + [e], Used(s, e)) && NoRepeats(Used(s, e))
  {
    var rest := UsedShape(s, e);
    if e in s { DeletedLatestFirst(start, uses, s, PlaceIn(s, e)); }
    var r := Used(s, e);
    assert (uses + [e])[..|uses|] == uses;
    forall x | x in rest
      ensures LastUse(start, uses + [e], x) == LastUse(start, uses, x) < LastUse(start, uses + [e], e)
    {
      LastUseBound(start, uses, x);
    }
    forall i, j | 0 <= i < j < |r|
      ensures r[i] != r[j] && LastUse(start, uses + [e], r[i]) > LastUse(start, uses + [e], r[j])
    {
      assert r[j] == rest[j - 1] && (i > 0 ==> r[i] == rest[i - 1]);
    }
  }

  /** However entries are used, the list is in order of last use. */
  lemma {:induction false} UsesLatestFirst<T>(start: seq<T>, uses: seq<T>)
    requires NoRepeats(start)
    ensures LatestFirst(start, uses, UsedAll(start, uses)) && NoRepeats(UsedAll(start, uses))
    decreases |uses|
  {
    if uses == [] {
      StartLatestFirst(start);
    } else {
      var n := |uses| - 1;
      UsesLatestFirst(start, uses[..n]);
      UseKeepsOrder(start, uses[..n], UsedAll(start, uses[..n]), uses[n]);
      assert uses[..n] + [uses[n]] == uses;
    }
  }

  /** What callers do with the cache; a lookup moves what it finds to the front. */
  datatype Call = Adding(entry: Entry) | LookingForProp(prop: string, value: Option<string>) | LookingForIp(addr: nat)

  /** The property list of an entry is what the lookup looks for. */
  ghost predicate Hits(aton: string -> Option<nat>, c: Call, pl: Proplist) {
    match c
    case Adding(_) => false
    case LookingForProp(prop, value) => Match(pl, prop, value).Some?
    case LookingForIp(addr) => HasAddress(aton, addr, pl)
  }

  ghost function FirstHit(aton: string -> Option<nat>, c: Call, s: seq<Entry>): seq<Entry> {
    if s == [] then [] else if Hits(aton, c, s[0].pl) then [s[0]] else FirstHit(aton, c, s[1..])
  }

  lemma {:induction false} FirstHitIs(aton: string -> Option<nat>, c: Call, s: seq<Entry>, k: nat)
    requires k <= |s| && (forall i :: 0 <= i < k ==> !Hits(aton, c, s[i].pl)) && (k < |s| ==> Hits(aton, c, s[k].pl))
    ensures FirstHit(aton, c, s) == if k < |s| then [s[k]] else []
  {
    if k > 0 { FirstHitIs(aton, c, s[1..], k - 1); }
  }

  /** The entry a call uses, if any: the one it adds, or the first that a lookup hits. */
  ghost function UsedBy(aton: string -> Option<nat>, c: Call, s: seq<Entry>): (used: seq<Entry>)
    ensures c.Adding? ==> used == [c.entry]
  {
    if c.Adding? then [c.entry] else FirstHit(aton, c, s)
  }

  /** The entries a sequence of calls uses, in turn. */
  ghost function UsesOf(aton: string -> Option<nat>, cs: seq<Call>, start: seq<Entry>): seq<Entry> {
    if cs == [] then []
    else
      var n := |cs| - 1;
      var before := UsesOf(aton, cs[..n], start);
      before + UsedBy(aton, cs[n], UsedAll(start, before))
  }

  type Proplist = seq<Property>

  /** One call; used is the entry it puts first, if it puts any. */
  method Perform(cache: PLCache, aton: string -> Option<nat>, c: Call) returns (ghost used: seq<Entry>)
    requires cache.Valid() && (c.Adding? ==> c.entry !in cache.entries)
    modifies cache, cache.entries, if c.Adding? then {c.entry} else {}
    ensures cache.Valid() && cache.maxEntries == old(cache.maxEntries)
    ensures used == UsedBy(aton, c, old(cache.entries)) && |used| <= 1
    ensures cache.entries == UsedAll(old(cache.entries), used)
  {
    ghost var s := cache.entries;
    var r: Entry? := null;
    ghost var k: nat := 0;
    match c {
      case Adding(entry) =>
        cache.Add(entry);
        OneUse(s, entry);
        return [entry];
      case LookingForProp(prop, value) => r, k := cache.LookupProp(prop, value, true);
      case LookingForIp(addr) => r, k := cache.LookupIp(aton, addr);
    }
    FirstHitIs(aton, c, s, k);
    if r == null { return []; }
    PlaceIs(s, k);
    OneUse(s, r);
    used := [r];
  }

  lemma OneUse<T>(s: seq<T>, e: T)
    ensures UsedAll(s, [e]) == Used(s, e)
  {
    assert [e][..0] == [];
  }

  lemma UsedInTurn<T>(s: seq<T>, a: seq<T>, b: seq<T>)
    requires |b| <= 1
    ensures UsedAll(s, a + b) == UsedAll(UsedAll(s, a), b)
  {
    if b == [] { assert a + b == a; } else {
      assert (a + b)[..|a|] == a && b == [b[0]];
      OneUse(UsedAll(s, a), b[0]);
    }
  }

  lemma UsedOnce<T>(s: seq<T>, now: seq<T>, e: T)
    requires |now| <= 1 && NoRepeats(s)
    ensures e in UsedAll(s, now) <==> e in s || e in now
  {
    if now != [] {
      OneUse(s, now[0]);
      assert now == [now[0]];
      var rest := UsedShape(s, now[0]);
    }
  }

  ghost function AddedIn(cs: seq<Call>): set<Entry> { set i | 0 <= i < |cs| && cs[i].Adding? :: cs[i].entry }

  /** The calls add different entries. */
  ghost predicate AddsDiffer(cs: seq<Call>) {
    forall i, j :: 0 <= i < j < |cs| && cs[i].Adding? && cs[j].Adding? ==> cs[i].entry != cs[j].entry
  }

  /** No call from number i on adds an entry of s. */
  ghost predicate AddsNew(cs: seq<Call>, i: nat, s: seq<Entry>) {
    forall j :: i <= j < |cs| && cs[j].Adding? ==> cs[j].entry !in s
  }

  ghost predicate Within(s: seq<Entry>, start: seq<Entry>, added: set<Entry>) {
    forall e :: e in s ==> e in start || e in added
  }

  lemma {:induction false} FirstHitIn(aton: string -> Option<nat>, c: Call, s: seq<Entry>, e: Entry)
    requires e in FirstHit(aton, c, s)
    ensures e in s
  {
    if !Hits(aton, c, s[0].pl) { FirstHitIn(aton, c, s[1..], e); }
  }

  /** A call's own entry is new to the calls that follow. */
  lemma AddsStayNew(aton: string -> Option<nat>, cs: seq<Call>, i: nat, s: seq<Entry>, start: seq<Entry>)
    requires i < |cs| && AddsDiffer(cs) && AddsNew(cs, i, s) && NoRepeats(s) && Within(s, start, AddedIn(cs))
    requires |UsedBy(aton, cs[i], s)| <= 1
    ensures var s' := UsedAll(s, UsedBy(aton, cs[i], s)); AddsNew(cs, i + 1, s') && Within(s', start, AddedIn(cs))
  {
    var now := UsedBy(aton, cs[i], s);
    var s' := UsedAll(s, now);
    forall e | e in s' ensures e in s || (cs[i].Adding? && e == cs[i].entry) {
      UsedOnce(s, now, e);
      if e in now && !cs[i].Adding? { FirstHitIn(aton, cs[i], s, e); }
    }
    assert cs[i].Adding? ==> cs[i].entry in AddedIn(cs);
  }

  lemma UsesOfNext(aton: string -> Option<nat>, cs: seq<Call>, start: seq<Entry>, i: nat)
    requires i < |cs|
    ensures UsesOf(aton, cs[..i + 1], start) ==
      UsesOf(aton, cs[..i], start) + UsedBy(aton, cs[i], UsedAll(start, UsesOf(aton, cs[..i], start)))
  {
    assert cs[..i + 1][..i] == cs[..i];
  }

  /** The list after the first i calls. */
  ghost predicate After(cache: PLCache, aton: string -> Option<nat>, cs: seq<Call>, i: nat, start: seq<Entry>)
    reads cache
  {
    && i <= |cs|
    && cache.entries == UsedAll(start, UsesOf(aton, cs[..i], start))
    && AddsNew(cs, i, cache.entries) && Within(cache.entries, start, AddedIn(cs))
  }

  method PerformNext(cache: PLCache, aton: string -> Option<nat>, cs: seq<Call>, i: nat, ghost start: seq<Entry>)
    requires i < |cs| && cache.Valid() && After(cache, aton, cs, i, start) && AddsDiffer(cs)
    modifies cache, cache.entries, if cs[i].Adding? then {cs[i].entry} else {}
    ensures cache.Valid() && cache.maxEntries == old(cache.maxEntries)
    ensures After(cache, aton, cs, i + 1, start)
  {
    ghost var before := cache.entries;
    ghost var now := Perform(cache, aton, cs[i]);
    AddsStayNew(aton, cs, i, before, start);
    UsesOfNext(aton, cs, start, i);
    UsedInTurn(start, UsesOf(aton, cs[..i], start), now);
  }

  /** Calls one after the other: the list is what using the entries they use, in turn, makes of it. */
  method PerformAll(cache: PLCache, aton: string -> Option<nat>, cs: seq<Call>)
    requires cache.Valid() && AddsNew(cs, 0, cache.entries) && AddsDiffer(cs)
    modifies cache, cache.entries, AddedIn(cs)
    ensures cache.Valid() && cache.maxEntries == old(cache.maxEntries)
    ensures cache.entries == UsedAll(old(cache.entries), UsesOf(aton, cs, old(cache.entries)))
    ensures Within(cache.entries, old(cache.entries), AddedIn(cs))
  {
    ghost var start := cache.entries;
    var i := 0;
    while i < |cs|
      invariant cache.Valid() && cache.maxEntries == old(cache.maxEntries)
      invariant After(cache, aton, cs, i, start)
    {
      assert cs[i].Adding? ==> cs[i].entry in AddedIn(cs);
      PerformNext(cache, aton, cs, i, start);
      i := i + 1;
    }
    assert cs[..i] == cs;
  }

  /** After any calls a limit of m keeps the max(m, 10) entries used last, latest first. */
  method LimitAfter(cache: PLCache, aton: string -> Option<nat>, cs: seq<Call>, m: int)
    returns (ghost all: seq<Entry>)
    requires cache.Valid() && AddsNew(cs, 0, cache.entries) && AddsDiffer(cs)
    modifies cache, cache.entries, AddedIn(cs)
    ensures cache.Valid() && cache.maxEntries == (if m < CACHE_MIN then CACHE_MIN else m)
    ensures all == UsedAll(old(cache.entries), UsesOf(aton, cs, old(cache.entries)))
    ensures LatestFirst(old(cache.entries), UsesOf(aton, cs, old(cache.entries)), all)
    ensures cache.entries == if |all| > cache.maxEntries then all[..cache.maxEntries] else all
  {
    ghost var start := cache.entries;
    PerformAll(cache, aton, cs);
    all := cache.entries;
    UsesLatestFirst(start, UsesOf(aton, cs, start));
    cache.SetMax(m);
  }
}

/** Sequences of DenseMap calls, against a plain finite map. */
module DenseMapRuns {
  import opened Words
  import opened DenseMapProbe
  import opened DenseMapTable
  import opened DenseMaps

  datatype Op<K, V> =
    | Insert(key: K, value: V) | Assign(key: K, value: V) | Erase(key: K) | Clear | Reserve(n: nat) | Compact

  /** What one call does to the map a table stores. */
  ghost predicate Step<K, V>(info: Info<K, V>, op: Op<K, V>, m: map<K, V>, m': map<K, V>) {
    match op
    case Insert(k, v) =>
      if k in m then m' == m
      else k in m' && m'[k] == v && Purged(info, m' - {k}, m)
    case Assign(k, v) => k in m' && m'[k] == v && Purged(info, m' - {k}, m - {k})
    case Erase(k) => if k in m then Purged(info, m', m - {k}) else m' == m
    case Clear => m' == map[]
    case Reserve(_) => Purged(info, m', m)
    case Compact => Purged(info, m', m)
  }

  /** The same call on a map that never drops anything. */
  function Plain<K(==), V>(op: Op<K, V>, m: map<K, V>): map<K, V> {
    match op
    case Insert(k, v) => if k in m then m else m[k := v]
    case Assign(k, v) => m[k := v]
    case Erase(k) => m - {k}
    case Clear => map[]
    case Reserve(_) => m
    case Compact => m
  }

  predicate OpKeysOk<K(==), V>(info: Info<K, V>, op: Op<K, V>) {
    match op
    case Insert(k, _) => !Reserved(info, k)
    case Assign(k, _) => !Reserved(info, k)
    case Erase(k) => !Reserved(info, k)
    case Reserve(n) => n <= MAX_RESERVE
    case _ => true
  }

  method PerformInsert<K(==, 0), V(==, 0)>(t: DenseMap<K, V>, op: Op<K, V>)
    requires t.Valid() && t.numBuckets <= MAX_BUCKETS && OpKeysOk(t.info, op) && (op.Insert? || op.Assign?)
    modifies t, t.buckets
    ensures t.Valid() && (t.buckets == old(t.buckets) || t.buckets == null || fresh(t.buckets))
    ensures Step(t.info, op, old(t.Contents()), t.Contents())
    ensures t.numEntries <= old(t.numEntries) + 1
    ensures old(t.numEntries) < MAX_ENTRIES ==> t.numBuckets <= MAX_BUCKETS
  {
    if t.numEntries < MAX_ENTRIES { RoomForNext(t.numEntries, t.numTombstones, 1, t.numBuckets); }
    match op
    case Insert(k, v) => var slot, inserted := t.TryEmplace(k, v);
    case Assign(k, v) => t.Assign(k, v);
  }

  method PerformErase<K(==, 0), V(==, 0)>(t: DenseMap<K, V>, op: Op<K, V>)
    requires t.Valid() && t.numBuckets <= MAX_BUCKETS && OpKeysOk(t.info, op) && op.Erase?
    modifies t, t.buckets
    ensures t.Valid() && (t.buckets == old(t.buckets) || t.buckets == null || fresh(t.buckets))
    ensures Step(t.info, op, old(t.Contents()), t.Contents())
    ensures t.numEntries <= old(t.numEntries) + 1
    ensures old(t.numEntries) < MAX_ENTRIES ==> t.numBuckets <= MAX_BUCKETS
  {
    var erased := t.Erase(op.key);
  }

  method PerformOther<K(==, 0), V(==, 0)>(t: DenseMap<K, V>, op: Op<K, V>)
    requires t.Valid() && t.numBuckets <= MAX_BUCKETS && OpKeysOk(t.info, op)
    requires op.Clear? || op.Reserve? || op.Compact?
    modifies t, t.buckets
    ensures t.Valid() && (t.buckets == old(t.buckets) || t.buckets == null || fresh(t.buckets))
    ensures Step(t.info, op, old(t.Contents()), t.Contents())
    ensures t.numEntries <= old(t.numEntries) + 1
    ensures old(t.numEntries) < MAX_ENTRIES ==> t.numBuckets <= MAX_BUCKETS
  {
    match op
    case Clear => t.Clear();
    case Reserve(n) => t.Reserve(n);
    case Compact => t.Compact();
  }

  /** Every call does what Step says, and keeps the table small enough for the next. */
  method Perform<K(==, 0), V(==, 0)>(t: DenseMap<K, V>, op: Op<K, V>)
    requires t.Valid() && t.numBuckets <= MAX_BUCKETS && OpKeysOk(t.info, op)
    modifies t, t.buckets
    ensures t.Valid() && (t.buckets == old(t.buckets) || t.buckets == null || fresh(t.buckets))
    ensures Step(t.info, op, old(t.Contents()), t.Contents())
    ensures t.numEntries <= old(t.numEntries) + 1
    ensures old(t.numEntries) < MAX_ENTRIES ==> t.numBuckets <= MAX_BUCKETS
  {
    match op
    case Insert(_, _) | Assign(_, _) => PerformInsert(t, op);
    case Erase(_) => PerformErase(t, op);
    case Clear | Reserve(_) | Compact => PerformOther(t, op);
  }

  /** ms is a run of the calls ops, from ms[0]. */
  ghost predicate IsRun<K, V>(info: Info<K, V>, ops: seq<Op<K, V>>, ms: seq<map<K, V>>) {
    |ms| == |ops| + 1 && forall i :: 0 <= i < |ops| ==> Step(info, ops[i], ms[i], ms[i + 1])
  }

  function PlainRun<K(==), V>(ops: seq<Op<K, V>>, m: map<K, V>): map<K, V> {
    if ops == [] then m else Plain(ops[|ops| - 1], PlainRun(ops[..|ops| - 1], m))
  }

  /** An insert whose key the plain map has, with a value the table may have dropped. */
  predicate Hidden<K(==), V>(info: Info<K, V>, op: Op<K, V>, plain: map<K, V>) {
    op.Insert? && op.key in plain && info.isPurgeable(plain[op.key])
  }

  /** No call of the run inserts over a value that may have been dropped. */
  ghost predicate NoneHidden<K, V>(info: Info<K, V>, ops: seq<Op<K, V>>, start: map<K, V>) {
    forall i :: 0 <= i < |ops| ==> !Hidden(info, ops[i], PlainRun(ops[..i], start))
  }

  /** One call keeps table and plain map apart by purgeable entries only. */
  lemma StepKeepsPurged<K, V>(info: Info<K, V>, op: Op<K, V>, m: map<K, V>, m': map<K, V>, plain: map<K, V>)
    requires Step(info, op, m, m') && Purged(info, m, plain) && !Hidden(info, op, plain)
    ensures Purged(info, m', Plain(op, plain))
  {
    if op.Insert? || op.Assign? {
      var k := op.key;
      forall q | q in m' && q != k ensures q in m && m'[q] == m[q] { assert q in m' - {k}; }
      forall q | q in m && q != k && q !in m' ensures info.isPurgeable(m[q]) { assert q !in m' - {k}; }
    }
  }

  /** After any run the table is the plain map less purgeable entries, provided no insert hit a hidden one. */
  lemma {:induction false} RunKeepsPurged<K, V>(info: Info<K, V>, ops: seq<Op<K, V>>, ms: seq<map<K, V>>)
    requires IsRun(info, ops, ms) && NoneHidden(info, ops, ms[0])
    ensures Purged(info, ms[|ops|], PlainRun(ops, ms[0]))
    decreases |ops|
  {
    if ops != [] {
      var n := |ops| - 1;
      forall i | 0 <= i < n ensures !Hidden(info, ops[..n][i], PlainRun(ops[..n][..i], ms[0])) {
        assert ops[..n][..i] == ops[..i];
      }
      RunKeepsPurged(info, ops[..n], ms[..n + 1]);
      assert !Hidden(info, ops[n], PlainRun(ops[..n], ms[0]));
      StepKeepsPurged(info, ops[n], ms[n], ms[n + 1], PlainRun(ops[..n], ms[0]));
    }
  }

  /** Every key whose plain value may not be dropped is in the table with exactly that value. */
  lemma RunFindsValues<K, V>(info: Info<K, V>, ops: seq<Op<K, V>>, ms: seq<map<K, V>>, k: K)
    requires IsRun(info, ops, ms) && NoneHidden(info, ops, ms[0])
    requires k in PlainRun(ops, ms[0]) && !info.isPurgeable(PlainRun(ops, ms[0])[k])
    ensures k in ms[|ops|] && ms[|ops|][k] == PlainRun(ops, ms[0])[k]
  {
    RunKeepsPurged(info, ops, ms);
  }

  function LookIn<K(==), V>(m: map<K, V>, k: K, zero: V): V { if k in m then m[k] else zero }

  /** When the default is the purgeable value, lookup cannot tell the table from the plain map. */
  lemma LookupAgrees<K, V>(info: Info<K, V>, ops: seq<Op<K, V>>, ms: seq<map<K, V>>, zero: V, k: K)
    requires IsRun(info, ops, ms) && NoneHidden(info, ops, ms[0])
    requires forall v :: info.isPurgeable(v) <==> v == zero
    ensures LookIn(ms[|ops|], k, zero) == LookIn(PlainRun(ops, ms[0]), k, zero)
  {
    RunKeepsPurged(info, ops, ms);
  }

  /** Without inserts (the table is used through operator[] and erase) nothing is ever hidden. */
  lemma NoInsertsNoneHidden<K, V>(info: Info<K, V>, ops: seq<Op<K, V>>, start: map<K, V>)
    requires forall i :: 0 <= i < |ops| ==> !ops[i].Insert?
    ensures NoneHidden(info, ops, start)
  {}

  /** When nothing purgeable is stored, a table is a plain map. */
  lemma {:induction false} NothingPurgeable<K, V>(info: Info<K, V>, ops: seq<Op<K, V>>, ms: seq<map<K, V>>)
    requires IsRun(info, ops, ms)
    requires forall k :: k in ms[0] ==> !info.isPurgeable(ms[0][k])
    requires forall i :: 0 <= i < |ops| && (ops[i].Insert? || ops[i].Assign?) ==> !info.isPurgeable(ops[i].value)
    ensures ms[|ops|] == PlainRun(ops, ms[0])
    ensures forall k :: k in ms[|ops|] ==> !info.isPurgeable(ms[|ops|][k])
    decreases |ops|
  {
    if ops != [] {
      var n := |ops| - 1;
      NothingPurgeable(info, ops[..n], ms[..n + 1]);
      StepKeepsPurged(info, ops[n], ms[n], ms[n + 1], PlainRun(ops[..n], ms[0]));
    }
  }

  /**
   * An insert keeps the two in step exactly when its key was not dropped, or was never there, or
   * carries the value that was dropped.
   */
  lemma InsertAgreesIff<K, V>(info: Info<K, V>, k: K, v: V, m: map<K, V>, m': map<K, V>, plain: map<K, V>)
    requires Step(info, Insert(k, v), m, m') && Purged(info, m, plain)
    ensures Purged(info, m', Plain(Insert(k, v), plain)) <==> k in m || k !in plain || v == plain[k]
  {}

  /** After i calls the table is the plain map less purgeable entries. */
  ghost predicate InStep<K, V>(info: Info<K, V>, ops: seq<Op<K, V>>, ms: seq<map<K, V>>, i: nat)
    requires i < |ms| && i <= |ops|
  {
    Purged(info, ms[i], PlainRun(ops[..i], ms[0]))
  }

  /** The i-th call is not an insert, or is one as InsertAgreesIff wants it. */
  ghost predicate Agreeable<K, V>(ops: seq<Op<K, V>>, ms: seq<map<K, V>>, i: nat)
    requires i < |ops| && i < |ms|
  {
    var plain := PlainRun(ops[..i], ms[0]);
    ops[i].Insert? ==> ops[i].key in ms[i] || ops[i].key !in plain || ops[i].value == plain[ops[i].key]
  }

  /** A run keeps its tables with the plain map, all the way, exactly when every insert of it is agreeable. */
  lemma RunAgreesIff<K, V>(info: Info<K, V>, ops: seq<Op<K, V>>, ms: seq<map<K, V>>)
    requires IsRun(info, ops, ms)
    ensures (forall i :: 0 <= i <= |ops| ==> InStep(info, ops, ms, i))
       <==> (forall i :: 0 <= i < |ops| ==> Agreeable(ops, ms, i))
  {
    if forall i :: 0 <= i <= |ops| ==> InStep(info, ops, ms, i) {
      forall i | 0 <= i < |ops| ensures Agreeable(ops, ms, i) {
        assert InStep(info, ops, ms, i) && InStep(info, ops, ms, i + 1);
        AgreesNext(info, ops, ms, i);
      }
    }
    if forall i :: 0 <= i < |ops| ==> Agreeable(ops, ms, i) {
      forall i | 0 <= i <= |ops| ensures InStep(info, ops, ms, i) { AgreesUpTo(info, ops, ms, i); }
    }
  }

  lemma AgreesNext<K, V>(info: Info<K, V>, ops: seq<Op<K, V>>, ms: seq<map<K, V>>, i: nat)
    requires IsRun(info, ops, ms) && i < |ops| && InStep(info, ops, ms, i)
    ensures InStep(info, ops, ms, i + 1) <==> Agreeable(ops, ms, i)
  {
    var plain := PlainRun(ops[..i], ms[0]);
    assert ops[..i + 1][..i] == ops[..i];
    if ops[i].Insert? {
      InsertAgreesIff(info, ops[i].key, ops[i].value, ms[i], ms[i + 1], plain);
    } else {
      StepKeepsPurged(info, ops[i], ms[i], ms[i + 1], plain);
    }
  }

  lemma {:induction false} AgreesUpTo<K, V>(info: Info<K, V>, ops: seq<Op<K, V>>, ms: seq<map<K, V>>, i: nat)
    requires IsRun(info, ops, ms) && i <= |ops|
    requires forall j :: 0 <= j < |ops| ==> Agreeable(ops, ms, j)
    ensures InStep(info, ops, ms, i)
  {
    if i > 0 {
      AgreesUpTo(info, ops, ms, i - 1);
      AgreesNext(info, ops, ms, i - 1);
    }
  }

  /** Before every call of the run the plain map has few enough entries for another one. */
  ghost predicate StaysSmall<K, V>(ops: seq<Op<K, V>>, start: map<K, V>) {
    forall i :: 0 <= i < |ops| ==> |PlainRun(ops[..i], start)| < MAX_ENTRIES
  }

  /** No call stores a key the plain map does not get. */
  lemma StepKeys<K, V>(info: Info<K, V>, op: Op<K, V>, m: map<K, V>, m': map<K, V>, plain: map<K, V>)
    requires Step(info, op, m, m') && m.Keys <= plain.Keys
    ensures m'.Keys <= Plain(op, plain).Keys
  {
    if op.Insert? || op.Assign? {
      forall q | q in m' && q != op.key ensures q in m { assert q in m' - {op.key}; }
    }
  }

  lemma {:induction false} KeysInPlain<K, V>(info: Info<K, V>, ops: seq<Op<K, V>>, ms: seq<map<K, V>>)
    requires IsRun(info, ops, ms)
    ensures ms[|ops|].Keys <= PlainRun(ops, ms[0]).Keys
    decreases |ops|
  {
    if ops != [] {
      var n := |ops| - 1;
      KeysInPlain(info, ops[..n], ms[..n + 1]);
      StepKeys(info, ops[n], ms[n], ms[n + 1], PlainRun(ops[..n], ms[0]));
    }
  }

  lemma FewerKeys<K, V>(a: map<K, V>, b: map<K, V>)
    requires a.Keys <= b.Keys
    ensures |a| <= |b|
  {
    assert b.Keys == a.Keys + (b.Keys - a.Keys);
    assert |b.Keys| == |a.Keys| + |b.Keys - a.Keys|;
  }

  /** So a run of any length leaves the table as small as the plain map is. */
  lemma RunFits<K, V>(info: Info<K, V>, ops: seq<Op<K, V>>, ms: seq<map<K, V>>)
    requires IsRun(info, ops, ms)
    ensures |ms[|ops|]| <= |PlainRun(ops, ms[0])|
  {
    KeysInPlain(info, ops, ms);
    FewerKeys(ms[|ops|], PlainRun(ops, ms[0]));
  }

  /** The calls ops on a table, however many, are a run: ms are the maps it stands for on the way. */
  method PerformAll<K(==, 0), V(==, 0)>(t: DenseMap<K, V>, ops: seq<Op<K, V>>) returns (ghost ms: seq<map<K, V>>)
    requires t.Valid() && t.numBuckets <= MAX_BUCKETS && StaysSmall(ops, t.Contents())
    requires forall i :: 0 <= i < |ops| ==> OpKeysOk(t.info, ops[i])
    modifies t, t.buckets
    ensures t.Valid() && t.numBuckets <= MAX_BUCKETS
    ensures t.buckets == old(t.buckets) || t.buckets == null || fresh(t.buckets)
    ensures IsRun(t.info, ops, ms) && ms[0] == old(t.Contents()) && ms[|ops|] == t.Contents()
  {
    ms := [t.Contents()];
    var i := 0;
    while i < |ops|
      invariant i <= |ops| && |ms| == i + 1
      invariant t.Valid() && t.numBuckets <= MAX_BUCKETS
      invariant t.buckets == old(t.buckets) || t.buckets == null || fresh(t.buckets)
      invariant ms[0] == old(t.Contents()) && ms[i] == t.Contents()
      invariant forall j :: 0 <= j < i ==> Step(t.info, ops[j], ms[j], ms[j + 1])
    {
      RunFits(t.info, ops[..i], ms);
      EntriesCounted(t);
      Perform(t, ops[i]);
      ms := ms + [t.Contents()];
      i := i + 1;
    }
  }

  /** A table after any run: the plain map less purgeable entries, so long as no insert hit a hidden one. */
  method RunTable<K(==, 0), V(==, 0)>(t: DenseMap<K, V>, ops: seq<Op<K, V>>)
    requires t.Valid() && t.numBuckets <= MAX_BUCKETS && StaysSmall(ops, t.Contents())
    requires forall i :: 0 <= i < |ops| ==> OpKeysOk(t.info, ops[i])
    modifies t, t.buckets
    ensures t.Valid() && t.numBuckets <= MAX_BUCKETS
    ensures t.buckets == old(t.buckets) || t.buckets == null || fresh(t.buckets)
    ensures NoneHidden(t.info, ops, old(t.Contents())) ==>
      Purged(t.info, t.Contents(), PlainRun(ops, old(t.Contents())))
  {
    ghost var start := t.Contents();
    ghost var ms := PerformAll(t, ops);
    if NoneHidden(t.info, ops, start) { RunKeepsPurged(t.info, ops, ms); }
  }

  ghost predicate OnlyZeroPurgeable<K, V(!new)>(info: Info<K, V>, zero: V) {
    forall v: V :: info.isPurgeable(v) <==> v == zero
  }

  /**
   * lookup after any run: a non-purgeable value is always found, and with only the default purgeable
   * every key agrees.
   */
  method RunAndLookup<K(==, 0), V(==, 0, !new)>(t: DenseMap<K, V>, ops: seq<Op<K, V>>, k: K) returns (v: V)
    requires t.Valid() && t.numBuckets <= MAX_BUCKETS && StaysSmall(ops, t.Contents()) && !Reserved(t.info, k)
    requires forall i :: 0 <= i < |ops| ==> OpKeysOk(t.info, ops[i])
    modifies t, t.buckets
    ensures var plain := PlainRun(ops, old(t.Contents()));
      NoneHidden(t.info, ops, old(t.Contents())) ==>
        && (k in plain && !t.info.isPurgeable(plain[k]) ==> v == plain[k])
        && (OnlyZeroPurgeable(t.info, t.zero) ==> v == LookIn(plain, k, t.zero))
  {
    RunTable(t, ops);
    v := t.Lookup(k);
  }

  /** A key's first usable bucket is one bucket. */
  lemma OneToTake<K, V>(info: Info<K, V>, b: seq<Bucket<K, V>>, k: K, i: nat, j: nat)
    requires |b| > 0 && MayTake(info, b, k, i) && MayTake(info, b, k, j)
    ensures i == j
  {
    var x: nat :| x < |b| && Visit(info.hash(k), x, |b|) == i && NoneUsable(info, b, info.hash(k), x);
    var y: nat :| y < |b| && Visit(info.hash(k), y, |b|) == j && NoneUsable(info, b, info.hash(k), y);
    assert !(x < y) && !(y < x);
  }

  /**
   * When it goes wrong: p holds a value that may be dropped, q's first usable bucket is p's, and once
   * q was inserted there, inserting p again succeeds. The plain map still has p's old value.
   */
  method OverwrittenThenInserted<K(==, 0), V(==, 0)>(t: DenseMap<K, V>, j: nat, q: K, w: V, v: V)
    requires t.Valid() && t.buckets != null && t.numBuckets <= MAX_BUCKETS && t.numEntries < MAX_ENTRIES
    requires !MustGrow(t.numEntries, t.numTombstones, t.numBuckets)
    requires j < t.numBuckets && Live(t.info, t.buckets[j]) && t.buckets[j].value != v
    requires !Reserved(t.info, q) && q !in t.Contents() && MayTake(t.info, t.buckets[..], q, j)
    modifies t, t.buckets
    ensures t.Valid()
    ensures var p, plain := old(t.buckets[j].key), old(t.Contents());
      && p in t.Contents() && t.Contents()[p] == v
      && p in PlainRun([Insert(q, w), Insert(p, v)], plain) && PlainRun([Insert(q, w), Insert(p, v)], plain)[p] != v
  {
    ghost var b, plain := t.buckets[..], t.Contents();
    var p := t.buckets[j].key;
    StoredAt(t.info, b, j);
    var slot, inserted := t.TryEmplace(q, w);
    OneToTake(t.info, b, q, slot, j);
    AbsentIsNotStored(t.info, b, q);
    StoredAfterTake(t.info, b, j, q, w);
    slot, inserted := t.TryEmplace(p, v);
    PlainTwo(Insert(q, w), Insert(p, v), plain);
  }

  lemma PlainTwo<K, V>(a: Op<K, V>, b: Op<K, V>, m: map<K, V>)
    ensures PlainRun([a, b], m) == Plain(b, Plain(a, m))
  {
    assert [a, b][..1] == [a] && [a][..0] == [];
    assert PlainRun([a], m) == Plain(a, m);
  }

  /** With one entry and no tombstones, probing from its hash meets it first. */
  lemma AloneIsFirst<V>(info: Info<int, V>, b: seq<Bucket<int, V>>, j: nat)
    requires TableOk(info, b) && LiveCount(info, b) == 1 && TombCount(info, b) == 0 && j < |b| && Live(info, b[j])
    ensures Visit(info.hash(b[j].key), 0, |b|) == j
  {
    var h := info.hash(b[j].key);
    var i: nat :| i < |b| && Visit(h, i, |b|) == j && ClearPath(info, b, h, i);
    if i > 0 {
      var x := Visit(h, 0, |b|);
      assert b[x].key != info.emptyKey;
      CountsAfter(info, b, x, Bucket(info.emptyKey, b[x].value));
      CountsAfter(info, b[x := Bucket(info.emptyKey, b[x].value)], j, Bucket(info.emptyKey, b[j].value));
    }
  }

  /** A new table given a zero, whose bucket any other key would take. */
  method OneZero() returns (t: DenseMap<int, int>, j: nat)
    ensures fresh(t) && t.Valid() && t.buckets != null && fresh(t.buckets)
    ensures t.info == ZeroHash() && t.Contents() == map[2 := 0]
    ensures t.numBuckets == MIN_BUCKETS && t.numEntries == 1 && t.numTombstones == 0
    ensures j < t.numBuckets && t.buckets[j] == Bucket(2, 0) && MayTake(t.info, t.buckets[..], 3, j)
  {
    t := new DenseMap<int, int>(ZeroHash(), 0, 0);
    var added;
    j, added := t.TryEmplace(2, 0);
    EntriesCounted(t);
    ghost var b := t.buckets[..];
    AloneIsFirst(t.info, b, j);
    FirstTaken(t.info, b, 3, j);
  }

  /**
   * It does go wrong: in a new table whose keys all hash to 0, with 0 the value that may be dropped,
   * the third insert puts in 7 for a key that was given 0 before, and that the plain map keeps at 0.
   */
  method InsertCanDisagree() returns (inserted: bool, found: int, ghost plain: map<int, int>)
    ensures plain == PlainRun([Insert(2, 0), Insert(3, 5), Insert(2, 7)], map[])
    ensures inserted && found == 7 && 2 in plain && plain[2] == 0
  {
    var t, j := OneZero();
    ghost var b := t.buckets[..];
    var slot, added := t.TryEmplace(3, 5);
    OneToTake(t.info, b, 3, slot, j);
    AbsentIsNotStored(t.info, b, 3);
    StoredAfterTake(t.info, b, j, 3, 5);
    slot, inserted := t.TryEmplace(2, 7);
    found := t.Lookup(2);
    plain := PlainThree();
  }

  lemma PlainThree() returns (plain: map<int, int>)
    ensures plain == PlainRun([Insert(2, 0), Insert(3, 5), Insert(2, 7)], map[]) && 2 in plain && plain[2] == 0
  {
    var ops := [Insert(2, 0), Insert(3, 5), Insert(2, 7)];
    PlainTwo(Insert(2, 0), Insert(3, 5), map[]);
    assert ops[..2] == [Insert(2, 0), Insert(3, 5)];
    plain := PlainRun(ops, map[]);
  }

  lemma FirstTaken<V>(info: Info<int, V>, b: seq<Bucket<int, V>>, k: int, j: nat)
    requires |b| > 0 && j < |b| && Usable(info, b[j]) && Visit(info.hash(k), 0, |b|) == j
    ensures MayTake(info, b, k, j)
  {
    assert NoneUsable(info, b, info.hash(k), 0);
  }

  /** Keys 0 and 1 are reserved. */
  function ZeroHash(): Info<int, int> { Info(0, 1, k => 0, v => v == 0) }

  lemma ClearSizes()
    ensures MinBuckets(40) == 64 && GrownSize(64) == 64 && RoomyBuckets(0, 64) == 64
    ensures ShrunkFor(1) == 4 && ClearedBuckets(1, 0, 64) == 8
  {
    assert Pow2(6) == 2 * Pow2(5) == 4 * Pow2(4) == 64;
  }

  /** Clearing one entry out of 64 buckets leaves 8, where 4 were computed. */
  method ClearAllocatesDouble() returns (before: nat, after: nat)
    ensures before == 64 && after == 8 && ShrunkFor(1) == 4
  {
    ClearSizes();
    var t := new DenseMap<int, int>(ZeroHash(), 0, 0);
    t.Reserve(40);
    before := t.numBuckets;
    EntriesCounted(t);
    var slot, inserted := t.TryEmplace(2, 5);
    EntriesCounted(t);
    t.Clear();
    after := t.numBuckets;
  }
}

/** The bucket array of a DenseMap as a sequence, and what makes it a correct table. */
module DenseMapTable {
  import opened Words
  import opened DenseMapProbe

  datatype Bucket<K, V> = Bucket(key: K, value: V)

  /** KeyInfoT and ValueInfoT: the two reserved keys, the hash, and which values may be dropped. */
  datatype Info<!K, !V> = Info(emptyKey: K, tombstoneKey: K, hash: K -> nat, isPurgeable: V -> bool)

  predicate Reserved<K(==), V>(info: Info<K, V>, k: K) { k == info.emptyKey || k == info.tombstoneKey }

  predicate Live<K(==), V>(info: Info<K, V>, b: Bucket<K, V>) { !Reserved(info, b.key) }

  /** Probing from hash h passes no empty bucket in its first i steps. */
  ghost predicate ClearPath<K, V>(info: Info<K, V>, b: seq<Bucket<K, V>>, h: nat, i: nat)
    requires |b| > 0
  {
    forall m :: 0 <= m < i ==> b[Visit(h, m, |b|)].key != info.emptyKey
  }

  /** Probing from hash h gets to bucket j before any empty bucket stops it. */
  ghost predicate Reaches<K, V>(info: Info<K, V>, b: seq<Bucket<K, V>>, h: nat, j: nat)
    requires |b| > 0
  {
    exists i: nat :: i < |b| && Visit(h, i, |b|) == j && ClearPath(info, b, h, i)
  }

  ghost predicate NoDup<K, V>(info: Info<K, V>, b: seq<Bucket<K, V>>) {
    forall i, j :: 0 <= i < |b| && 0 <= j < |b| && i != j && Live(info, b[i]) ==> b[i].key != b[j].key
  }

  ghost predicate TableOk<K, V>(info: Info<K, V>, b: seq<Bucket<K, V>>) {
    && info.emptyKey != info.tombstoneKey
    && |b| >= 4 && IsPow2(|b|)
    && NoDup(info, b)
    && (forall j :: 0 <= j < |b| && Live(info, b[j]) ==> Reaches(info, b, info.hash(b[j].key), j))
  }

  /** k is stored nowhere. */
  ghost predicate Absent<K, V>(b: seq<Bucket<K, V>>, k: K) {
    forall j :: 0 <= j < |b| ==> b[j].key != k
  }

  /** A bucket a new key may overwrite: empty, a tombstone, or holding a value that may be dropped. */
  predicate Usable<K(==), V>(info: Info<K, V>, x: Bucket<K, V>) {
    Reserved(info, x.key) || info.isPurgeable(x.value)
  }

  /** j is the first usable bucket on the probe path of the key k, which is not stored. */
  ghost predicate MayTake<K, V>(info: Info<K, V>, b: seq<Bucket<K, V>>, k: K, j: nat)
    requires |b| > 0
  {
    && j < |b| && Usable(info, b[j])
    && exists i: nat :: i < |b| && Visit(info.hash(k), i, |b|) == j && NoneUsable(info, b, info.hash(k), i)
  }

  ghost predicate NoneUsable<K, V>(info: Info<K, V>, b: seq<Bucket<K, V>>, h: nat, i: nat)
    requires |b| > 0
  {
    forall m :: 0 <= m < i ==> !Usable(info, b[Visit(h, m, |b|)])
  }

  // ------------------------------------------------------------------ changing one bucket

  lemma TakeKeepsTable<K, V>(info: Info<K, V>, b: seq<Bucket<K, V>>, j: nat, k: K, v: V)
    requires TableOk(info, b) && !Reserved(info, k) && Absent(b, k) && MayTake(info, b, k, j)
    ensures TableOk(info, b[j := Bucket(k, v)])
  {}

  lemma EraseKeepsTable<K, V>(info: Info<K, V>, b: seq<Bucket<K, V>>, j: nat, v: V)
    requires TableOk(info, b) && j < |b|
    ensures TableOk(info, b[j := Bucket(info.tombstoneKey, v)])
  {}

  lemma AllEmptyIsTable<K, V>(info: Info<K, V>, b: seq<Bucket<K, V>>)
    requires info.emptyKey != info.tombstoneKey && |b| >= 4 && IsPow2(|b|)
    requires forall j :: 0 <= j < |b| ==> b[j].key == info.emptyKey
    ensures TableOk(info, b)
  {}

  // ------------------------------------------------------------------ counting

  function LiveCount<K(==), V>(info: Info<K, V>, b: seq<Bucket<K, V>>): nat {
    if b == [] then 0 else LiveCount(info, b[..|b| - 1]) + (if Live(info, b[|b| - 1]) then 1 else 0)
  }

  function TombCount<K(==), V>(info: Info<K, V>, b: seq<Bucket<K, V>>): nat {
    if b == [] then 0
    else TombCount(info, b[..|b| - 1]) + (if b[|b| - 1].key == info.tombstoneKey then 1 else 0)
  }

  function One(c: bool): nat { if c then 1 else 0 }

  lemma {:induction false} CountsAfter<K, V>(info: Info<K, V>, b: seq<Bucket<K, V>>, j: nat, x: Bucket<K, V>)
    requires j < |b|
    ensures LiveCount(info, b[j := x]) + One(Live(info, b[j])) == LiveCount(info, b) + One(Live(info, x))
    ensures TombCount(info, b[j := x]) + One(b[j].key == info.tombstoneKey)
         == TombCount(info, b) + One(x.key == info.tombstoneKey)
    decreases |b|
  {
    var n := |b| - 1;
    var b' := b[j := x];
    if j == n {
      assert b'[..n] == b[..n];
    } else {
      assert b'[..n] == b[..n][j := x];
      CountsAfter(info, b[..n], j, x);
    }
  }

  lemma {:induction false} CountsOfEmpty<K, V>(info: Info<K, V>, b: seq<Bucket<K, V>>)
    requires info.emptyKey != info.tombstoneKey
    requires forall j :: 0 <= j < |b| ==> b[j].key == info.emptyKey
    ensures LiveCount(info, b) == 0 && TombCount(info, b) == 0
    decreases |b|
  {
    if b != [] { CountsOfEmpty(info, b[..|b| - 1]); }
  }

  /** With fewer live and tombstone buckets than buckets, one is empty. */
  lemma {:induction false} SomeEmpty<K, V>(info: Info<K, V>, b: seq<Bucket<K, V>>) returns (j: nat)
    requires info.emptyKey != info.tombstoneKey && LiveCount(info, b) + TombCount(info, b) < |b|
    ensures j < |b| && b[j].key == info.emptyKey
    decreases |b|
  {
    j := |b| - 1;
    if b[j].key != info.emptyKey {
      j := SomeEmpty(info, b[..|b| - 1]);
    }
  }

  // ------------------------------------------------------------------ the map a table stores

  ghost function Keys<K, V>(info: Info<K, V>, b: seq<Bucket<K, V>>): set<K> {
    set j | 0 <= j < |b| && Live(info, b[j]) :: b[j].key
  }

  ghost function ValueOf<K, V>(info: Info<K, V>, b: seq<Bucket<K, V>>, k: K): V
    requires k in Keys(info, b)
  {
    var j :| 0 <= j < |b| && Live(info, b[j]) && b[j].key == k;
    b[j].value
  }

  ghost function Stored<K, V>(info: Info<K, V>, b: seq<Bucket<K, V>>): map<K, V> {
    map k | k in Keys(info, b) :: ValueOf(info, b, k)
  }

  lemma StoredAt<K, V>(info: Info<K, V>, b: seq<Bucket<K, V>>, j: nat)
    requires NoDup(info, b) && j < |b| && Live(info, b[j])
    ensures b[j].key in Stored(info, b) && Stored(info, b)[b[j].key] == b[j].value
  {}

  lemma StoredSomewhere<K, V>(info: Info<K, V>, b: seq<Bucket<K, V>>, k: K) returns (j: nat)
    requires NoDup(info, b) && k in Stored(info, b)
    ensures j < |b| && Live(info, b[j]) && b[j].key == k && b[j].value == Stored(info, b)[k]
  {
    j :| 0 <= j < |b| && Live(info, b[j]) && b[j].key == k;
    StoredAt(info, b, j);
  }

  lemma AbsentIsNotStored<K, V>(info: Info<K, V>, b: seq<Bucket<K, V>>, k: K)
    requires !Reserved(info, k)
    ensures Absent(b, k) <==> k !in Stored(info, b)
  {}

  /** What the map becomes when a live bucket replaces bucket j. */
  lemma StoredAfterTake<K, V>(info: Info<K, V>, b: seq<Bucket<K, V>>, j: nat, k: K, v: V)
    requires NoDup(info, b) && j < |b| && !Reserved(info, k)
    requires b[j].key == k || Absent(b, k)
    ensures NoDup(info, b[j := Bucket(k, v)])
    ensures Stored(info, b[j := Bucket(k, v)]) ==
      (if Live(info, b[j]) then Stored(info, b) - {b[j].key} else Stored(info, b))[k := v]
  {
    var x := Bucket(k, v);
    var b' := b[j := x];
    var was := Stored(info, b);
    var now := Stored(info, b');
    var want := (if Live(info, b[j]) then was - {b[j].key} else was)[k := v];
    forall q | q in now ensures q in want && now[q] == want[q] {
      var m := StoredSomewhere(info, b', q);
      if m != j { StoredAt(info, b, m); }
    }
    forall q | q in want ensures q in now {
      if q == k {
        StoredAt(info, b', j);
      } else {
        var m := StoredSomewhere(info, b, q);
        StoredAt(info, b', m);
      }
    }
  }

  lemma StoredAfterErase<K, V>(info: Info<K, V>, b: seq<Bucket<K, V>>, j: nat, v: V)
    requires NoDup(info, b) && j < |b| && Live(info, b[j])
    ensures NoDup(info, b[j := Bucket(info.tombstoneKey, v)])
    ensures Stored(info, b[j := Bucket(info.tombstoneKey, v)]) == Stored(info, b) - {b[j].key}
  {
    var x := Bucket(info.tombstoneKey, v);
    var b' := b[j := x];
    var was := Stored(info, b);
    var now := Stored(info, b');
    forall q | q in now ensures q in was && q != b[j].key && now[q] == was[q] {
      var m := StoredSomewhere(info, b', q);
      StoredAt(info, b, m);
    }
    forall q | q in was && q != b[j].key ensures q in now {
      var m := StoredSomewhere(info, b, q);
      StoredAt(info, b', m);
    }
  }

  lemma StoredOfEmpty<K, V>(info: Info<K, V>, b: seq<Bucket<K, V>>)
    requires forall j :: 0 <= j < |b| ==> Reserved(info, b[j].key)
    ensures Stored(info, b) == map[]
  {}

  lemma {:induction false} KeyCount<K, V>(info: Info<K, V>, b: seq<Bucket<K, V>>)
    requires NoDup(info, b)
    ensures |Keys(info, b)| == LiveCount(info, b)
    decreases |b|
  {
    if b != [] {
      var n := |b| - 1;
      var c := b[..n];
      KeyCount(info, c);
      if Live(info, b[n]) {
        assert Keys(info, b) == Keys(info, c) + {b[n].key};
        assert b[n].key !in Keys(info, c);
      } else {
        assert Keys(info, b) == Keys(info, c);
      }
    }
  }

  /** The table holds as many entries as it has live buckets. */
  lemma StoredCount<K, V>(info: Info<K, V>, b: seq<Bucket<K, V>>)
    requires NoDup(info, b)
    ensures |Stored(info, b)| == LiveCount(info, b)
  {
    KeyCount(info, b);
    assert Stored(info, b).Keys == Keys(info, b);
  }

  // ------------------------------------------------------------------ dropping purgeable entries

  /** m with some purgeable entries gone and nothing else changed. */
  ghost predicate Purged<K, V>(info: Info<K, V>, m': map<K, V>, m: map<K, V>) {
    && m'.Keys <= m.Keys
    && (forall k :: k in m' ==> m'[k] == m[k])
    && (forall k :: k in m && k !in m' ==> info.isPurgeable(m[k]))
  }

  /** m with every purgeable entry gone. */
  ghost function Kept<K, V>(info: Info<K, V>, m: map<K, V>): map<K, V> {
    map k | k in m && !info.isPurgeable(m[k]) :: m[k]
  }
}

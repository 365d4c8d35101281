/** The open-addressed hash table: quadratic probing, tombstones, and values a rehash may drop. */
module DenseMaps {
  import opened Words
  import opened MathExtras
  import opened Options
  import opened DenseMapProbe
  import opened DenseMapTable

  const MIN_BUCKETS := 4
  const MIN_COMPACT := 1024
  /** Up to this many buckets no 32-bit computation below wraps. */
  const MAX_BUCKETS: nat := 0x4000_0000
  const MAX_RESERVE: nat := 0x2000_0000
  /** Up to this many entries inserting keeps the bucket count within MAX_BUCKETS. */
  const MAX_ENTRIES: nat := 0x1800_0000

  /** The bucket count for n entries. */
  function MinBuckets(n: nat): nat {
    if n == 0 then 0 else NextPow2(n * 4 / 3 + 1)
  }

  /** The bucket count grow(atLeast) arrives at. */
  function GrownSize(atLeast: nat): nat {
    if atLeast < MIN_BUCKETS then MIN_BUCKETS else NextPow2(atLeast - 1)
  }

  /** One more entry needs a rehash first: at most a quarter of the buckets would be without, or an eighth empty. */
  predicate MustGrow(entries: nat, tombs: nat, n: nat): (must: bool)
    ensures must <==> 4 * (n - (entries + 1)) <= n || 8 * (n - (entries + 1 + tombs)) <= n
  {
    (entries + 1) * 4 >= n * 3 || n - (entries + 1 + tombs) <= n / 8
  }

  /** The bucket count after inserting one more entry; a rehash for tombstones keeps it. */
  function RoomyBuckets(entries: nat, n: nat): nat {
    if (entries + 1) * 4 < n * 3 then n else if n == 0 then MIN_BUCKETS else n * 2
  }

  /** count more entries fit without a rehash. */
  predicate HasRoom(entries: nat, tombs: nat, count: nat, n: nat) {
    tombs == 0 && (count == 0 || (entries + count) * 4 < n * 3)
  }

  /** With room, or with few entries, inserting one more keeps the table's size within MAX_BUCKETS. */
  lemma RoomForNext(entries: nat, tombs: nat, count: nat, n: nat)
    requires count > 0 && n <= MAX_BUCKETS && (HasRoom(entries, tombs, count, n) || entries < MAX_ENTRIES)
    ensures RoomyBuckets(entries, n) <= MAX_BUCKETS
    ensures HasRoom(entries, tombs, count, n) ==> !MustGrow(entries, tombs, n)
  {}

  /** compact rehashes a table with so few entries left. */
  predicate MustCompact(entries: nat, n: nat) { entries > 0 && n / 16 > entries && n > MIN_COMPACT }

  /** That is exactly when less than a sixteenth of a table of more than 1024 buckets is used. */
  lemma MustCompactIff(entries: nat, n: nat)
    requires IsPow2(n) && entries > 0
    ensures MustCompact(entries, n) <==> 16 * entries < n && 1024 < n
  {
    if n > 1024 {
      Pow2Values();
      assert Pow2(10) == 1024;
      Pow2IsPow2(10);
      Sixteenths(n);
    }
  }

  lemma Sixteenths(n: nat)
    requires IsPow2(n) && n > 1024
    ensures n % 16 == 0
  {
    var k := ExponentOf(n);
    if k <= 10 { Pow2Mono(k, 10); }
    assert Pow2(k) == 2 * Pow2(k - 1) == 4 * Pow2(k - 2) == 8 * Pow2(k - 3) == 16 * Pow2(k - 4);
  }

  /** The bucket count shrink_and_clear settles on, before init enlarges it. */
  function ShrunkFor(entries: nat): nat {
    if entries == 0 then 0
    else if 2 * NextPow2(entries - 1) < MIN_BUCKETS then MIN_BUCKETS else 2 * NextPow2(entries - 1)
  }

  /** The bucket count shrink_and_clear leaves: the one it settles on, but twice that when init allocates it. */
  function ShrunkBuckets(entries: nat, n: nat): nat {
    if ShrunkFor(entries) == n then n else 2 * ShrunkFor(entries)
  }

  /** The bucket count clear leaves. */
  function ClearedBuckets(entries: nat, tombs: nat, n: nat): nat {
    if (entries == 0 && tombs == 0) || entries * 4 >= n || n <= MIN_BUCKETS then n else ShrunkBuckets(entries, n)
  }

  lemma MinBucketsOk(n: nat)
    requires 0 < n <= MAX_RESERVE
    ensures n * 4 / 3 + 1 < Pow2(31)
    ensures IsPow2(MinBuckets(n)) && 4 <= MinBuckets(n) <= MAX_BUCKETS
    ensures n * 4 + 3 < MinBuckets(n) * 3
    ensures forall p: nat :: IsPow2(p) && n * 4 + 3 < p * 3 ==> MinBuckets(n) <= p
  {
    Pow2Values();
    var m := n * 4 / 3 + 1;
    NextPow2Least(m);
    Pow2IsPow2(30);
    assert Pow2(30) == MAX_BUCKETS;
    assert IsPow2(MAX_BUCKETS) && m < MAX_BUCKETS;
    Pow2IsPow2(1);
    Pow2Gap(2, MinBuckets(n));
  }

  lemma GrownSizeOk(atLeast: nat)
    requires atLeast <= 0x8000_0000
    ensures IsPow2(GrownSize(atLeast)) && 4 <= GrownSize(atLeast) <= 0x8000_0000 && atLeast <= GrownSize(atLeast)
    ensures IsPow2(atLeast) && atLeast >= 4 ==> GrownSize(atLeast) == atLeast
    ensures forall p: nat :: IsPow2(p) && p >= 4 && p >= atLeast ==> GrownSize(atLeast) <= p
  {
    Pow2Values();
    Pow2IsPow2(2);
    Pow2IsPow2(31);
    assert Pow2(2) == 4;
    if atLeast >= 4 {
      NextPow2Least(atLeast - 1);
      assert IsPow2(0x8000_0000);
    }
  }

  /** One turn of quadratic probing from hash h. */
  method Advance(ghost h: nat, bucketNo: nat, probeAmt: nat, numBuckets: nat) returns (bucketNo': nat, probeAmt': nat)
    requires IsPow2(numBuckets) && probeAmt > 0 && bucketNo == Visit(h, probeAmt - 1, numBuckets)
    ensures probeAmt' == probeAmt + 1 && bucketNo' == Visit(h, probeAmt, numBuckets)
  {
    NextBucket(h, probeAmt - 1, numBuckets);
    bucketNo', probeAmt' := bucketNo + probeAmt, probeAmt + 1;
    bucketNo' := And(bucketNo', numBuckets - 1);
  }

  /** The probe loop of LookupBucketFor, over a table that is not null. */
  method Probe<K(==), V>(info: Info<K, V>, buckets: array<Bucket<K, V>>, key: K) returns (found: bool, at: nat)
    requires IsPow2(buckets.Length) && exists j :: 0 <= j < buckets.Length && buckets[j].key == info.emptyKey
    ensures at < buckets.Length
    ensures found ==> buckets[at].key == key
    ensures !found ==> ProbeFails(info, buckets[..], key) && MayTake(info, buckets[..], key, at)
  {
    var numBuckets := buckets.Length;
    ghost var b := buckets[..];
    ghost var h := info.hash(key);
    ghost var holeAt := ProbesToEmpty(info, b, h);
    var foundTombstone: Option<nat> := None;
    var bucketNo := And(info.hash(key), numBuckets - 1);
    var probeAmt := 1;
    FirstBucket(h, numBuckets);
    while true
      invariant 1 <= probeAmt <= holeAt + 1 <= numBuckets
      invariant bucketNo == Visit(h, probeAmt - 1, numBuckets)
      invariant Scanned(info, b, key, probeAmt - 1, foundTombstone)
      decreases numBuckets - probeAmt
    {
      assert b[bucketNo] == buckets[bucketNo];
      if buckets[bucketNo].key == key { return true, bucketNo; }
      if buckets[bucketNo].key == info.emptyKey {
        ScanEnds(info, b, key, probeAmt - 1, foundTombstone);
        return false, if foundTombstone.Some? then foundTombstone.value else bucketNo;
      }
      ScanOn(info, b, key, probeAmt - 1, foundTombstone, holeAt);
      if buckets[bucketNo].key == info.tombstoneKey && foundTombstone.None? {
        foundTombstone := Some(bucketNo);
      }
      if info.isPurgeable(buckets[bucketNo].value) && foundTombstone.None? {
        foundTombstone := Some(bucketNo);
      }
      if probeAmt > numBuckets {
        assert false;                         // FatalCorruptHashTables
      }
      bucketNo, probeAmt := Advance(h, bucketNo, probeAmt, numBuckets);
    }
  }

  class DenseMap<K(==, 0), V(==, 0)> {
    const info: Info<K, V>
    const zero: V                             // ValueT()
    var buckets: array?<Bucket<K, V>>
    var numEntries: nat
    var numTombstones: nat
    var numBuckets: nat
    ghost var grows: nat                      // how often grow has run

    /** The map this table stands for. */
    ghost function Contents(): map<K, V>
      reads this, buckets
    {
      if buckets == null then map[] else Stored(info, buckets[..])
    }

    /** Enough for a probe to work: a correct table, true counters, and an empty bucket. */
    ghost predicate Searchable()
      reads this, buckets
    {
      && info.emptyKey != info.tombstoneKey
      && (buckets == null <==> numBuckets == 0)
      && (buckets == null ==> numEntries == 0 && numTombstones == 0)
      && (buckets != null ==>
            && buckets.Length == numBuckets <= 0x8000_0000
            && TableOk(info, buckets[..])
            && numEntries == LiveCount(info, buckets[..])
            && numTombstones == TombCount(info, buckets[..])
            && numEntries + numTombstones < numBuckets)
    }

    /** More than an eighth of the buckets hold neither an entry nor a tombstone. */
    predicate Sparse()
      reads this
    {
      numBuckets > 0 ==> numBuckets / 8 < numBuckets - (numEntries + numTombstones)
    }

    /** And under the load limit. */
    ghost predicate Valid()
      reads this, buckets
    {
      Searchable() && Sparse() && (numBuckets > 0 ==> numEntries * 4 < numBuckets * 3)
    }

    // ------------------------------------------------------------------ probing

    /** Finds the bucket of key, or the one to put it in. */
    method LookupBucketFor(key: K) returns (found: bool, at: nat)
      requires Searchable() && !Reserved(info, key)
      ensures found <==> key in Contents()
      ensures buckets != null ==> at < numBuckets
      ensures found ==> buckets != null && buckets[at].key == key
      ensures !found && buckets != null ==> Absent(buckets[..], key) && MayTake(info, buckets[..], key, at)
    {
      if numBuckets == 0 { return false, 0; }
      ghost var hole := SomeEmpty(info, buckets[..]);
      assert buckets[hole].key == info.emptyKey;
      found, at := Probe(info, buckets, key);
      if found {
        StoredAt(info, buckets[..], at);
      } else {
        AbsentAfterProbe(info, buckets[..], key);
        AbsentIsNotStored(info, buckets[..], key);
      }
    }

    /** The stored value, or the default. */
    method Lookup(key: K) returns (v: V)
      requires Valid() && !Reserved(info, key)
      ensures v == if key in Contents() then Contents()[key] else zero
    {
      var found, at := LookupBucketFor(key);
      if found {
        StoredAt(info, buckets[..], at);
        return buckets[at].value;
      }
      return zero;
    }

    // ------------------------------------------------------------------ storage

    method AllocateBuckets(n: nat)
      modifies this`buckets, this`numBuckets
      ensures numBuckets == n && (buckets == null <==> n == 0)
      ensures buckets != null ==> fresh(buckets) && buckets.Length == n
    {
      numBuckets := n;
      if n == 0 { buckets := null; } else { buckets := new Bucket<K, V>[n]; }
    }

    /** Marks every bucket empty; the value slots keep whatever they held. */
    method InitEmpty()
      requires info.emptyKey != info.tombstoneKey && (buckets == null <==> numBuckets == 0)
      requires buckets != null ==> buckets.Length == numBuckets && 4 <= numBuckets <= 0x8000_0000 && IsPow2(numBuckets)
      modifies this`numEntries, this`numTombstones, buckets
      ensures Valid() && Contents() == map[] && numEntries == 0 && numTombstones == 0
      ensures buckets != null ==> forall j :: 0 <= j < numBuckets ==> buckets[j].key == info.emptyKey
    {
      numEntries, numTombstones := 0, 0;
      var i := 0;
      while i < numBuckets
        invariant 0 <= i <= numBuckets && numEntries == 0 && numTombstones == 0
        invariant forall j :: 0 <= j < i ==> buckets[j].key == info.emptyKey
      {
        buckets[i] := Bucket(info.emptyKey, buckets[i].value);
        i := i + 1;
      }
      if buckets != null {
        AllEmptyIsTable(info, buckets[..]);
        CountsOfEmpty(info, buckets[..]);
        StoredOfEmpty(info, buckets[..]);
      }
    }

    method MinBucketsFor(n: nat) returns (r: nat)
      requires n <= MAX_RESERVE
      ensures r == MinBuckets(n)
    {
      if n == 0 { return 0; }
      MinBucketsOk(n);
      Pow2Mono(31, 32);
      r := NextPowerOf2U32(n * 4 / 3 + 1);
    }

    /** init: room for n entries. */
    method InitFor(n: nat)
      requires info.emptyKey != info.tombstoneKey && n <= MAX_RESERVE
      modifies this`buckets, this`numBuckets, this`numEntries, this`numTombstones
      ensures Valid() && Contents() == map[] && numEntries == 0 && numTombstones == 0
      ensures numBuckets == MinBuckets(n) && (buckets != null ==> fresh(buckets))
    {
      var size := MinBucketsFor(n);
      AllocateBuckets(size);
      if size > 0 {
        MinBucketsOk(n);
        InitEmpty();
      } else {
        if n > 0 { MinBucketsOk(n); }
        numEntries, numTombstones := 0, 0;
      }
    }

    constructor (info: Info<K, V>, zero: V, n: nat)
      requires info.emptyKey != info.tombstoneKey && n <= MAX_RESERVE
      ensures Valid() && Contents() == map[] && numEntries == 0 && numTombstones == 0
      ensures numBuckets == MinBuckets(n) && grows == 0
      ensures this.info == info && this.zero == zero && (buckets != null ==> fresh(buckets))
    {
      this.info := info;
      this.zero := zero;
      buckets, numBuckets, numEntries, numTombstones, grows := null, 0, 0, 0, 0;
      new;
      InitFor(n);
    }

    // ------------------------------------------------------------------ growing

    /** Reinserts one entry into a table without tombstones or purgeable entries. */
    method MoveBucket(x: Bucket<K, V>)
      requires Searchable() && numBuckets > 0 && numTombstones == 0 && numEntries + 1 < numBuckets
      requires NonePurgeable(info, buckets[..])
      requires Live(info, x) && !info.isPurgeable(x.value) && x.key !in Contents()
      modifies this`numEntries, buckets
      ensures Searchable() && NonePurgeable(info, buckets[..]) && numEntries == old(numEntries) + 1
      ensures Contents() == old(Contents())[x.key := x.value]
    {
      var found, dest := LookupBucketFor(x.key);
      ghost var b := buckets[..];
      MoveOne(info, b, dest, x);
      buckets[dest] := x;
      assert buckets[..] == b[dest := x];
      numEntries := numEntries + 1;
    }

    /** Reinserts every entry that may not be dropped. */
    method MoveFromOldBuckets(from: array<Bucket<K, V>>)
      requires info.emptyKey != info.tombstoneKey
      requires buckets != null && buckets.Length == numBuckets && 4 <= numBuckets <= 0x8000_0000 && IsPow2(numBuckets)
      requires from != buckets && NoDup(info, from[..]) && LiveCount(info, from[..]) * 4 < numBuckets * 3
      modifies this`numEntries, this`numTombstones, buckets
      ensures Valid() && numTombstones == 0 && numEntries <= LiveCount(info, from[..])
      ensures Contents() == Kept(info, Stored(info, from[..]))
      ensures from[..] == old(from[..])
    {
      ghost var was := from[..];
      InitEmpty();
      var i := 0;
      StoredOfEmpty(info, was[..0]);
      assert Kept(info, map[]) == map[];
      while i < from.Length
        invariant 0 <= i <= from.Length && from[..] == was
        invariant Searchable() && numTombstones == 0 && numEntries <= LiveCount(info, was[..i])
        invariant NonePurgeable(info, buckets[..])
        invariant Contents() == Kept(info, Stored(info, was[..i]))
      {
        MoveNext(info, was, i);
        if info.isPurgeable(from[i].value) {
        } else if from[i].key != info.emptyKey && from[i].key != info.tombstoneKey {
          MoveBucket(from[i]);
        }
        i := i + 1;
      }
      assert was[..i] == was;
    }

    /** max(4, NextPowerOf2(atLeast - 1)), where a size of zero wraps below zero and back to the minimum. */
    method SizeToGrowTo(atLeast: nat) returns (size: nat)
      requires atLeast <= 0x8000_0000
      ensures size == GrownSize(atLeast) && IsPow2(size) && 4 <= size <= 0x8000_0000
    {
      Pow2Values();
      GrownSizeOk(atLeast);
      size := NextPowerOf2U32(if atLeast == 0 then 0xFFFF_FFFF else atLeast - 1);
      SmallGrow(atLeast, size);
      if size < MIN_BUCKETS { size := MIN_BUCKETS; }
    }

    /** Rehashes into a table of at least atLeast buckets. */
    method Grow(atLeast: nat)
      requires Valid() && atLeast <= 0x8000_0000
      requires numEntries * 4 < GrownSize(atLeast) * 3
      modifies this, buckets
      ensures Valid() && buckets != null && fresh(buckets) && numTombstones == 0
      ensures numBuckets == GrownSize(atLeast) && numEntries <= old(numEntries)
      ensures Contents() == Kept(info, old(Contents())) && grows == old(grows) + 1
    {
      var from := buckets;
      var size := SizeToGrowTo(atLeast);
      AllocateBuckets(size);
      grows := grows + 1;
      if from == null {
        InitEmpty();
      } else {
        MoveFromOldBuckets(from);
      }
    }

    // ------------------------------------------------------------------ inserting

    /** Rehashes when the table is too full of entries or of tombstones, and finds key's bucket again. */
    method MakeRoom(key: K, at: nat) returns (slot: nat)
      requires Valid() && numBuckets <= MAX_BUCKETS && !Reserved(info, key) && key !in Contents()
      requires buckets != null ==> Absent(buckets[..], key) && MayTake(info, buckets[..], key, at)
      modifies this, buckets
      ensures Valid() && buckets != null && (buckets == old(buckets) || fresh(buckets))
      ensures Absent(buckets[..], key) && MayTake(info, buckets[..], key, slot)
      ensures (numEntries + 1) * 4 < numBuckets * 3 && numEntries + 1 + numTombstones < numBuckets
      ensures numEntries <= old(numEntries) && numBuckets == RoomyBuckets(old(numEntries), old(numBuckets))
      ensures MustGrow(old(numEntries), old(numTombstones), old(numBuckets)) ==>
        Contents() == Kept(info, old(Contents())) && numTombstones == 0
      ensures !MustGrow(old(numEntries), old(numTombstones), old(numBuckets)) ==>
        && grows == old(grows) && buckets == old(buckets)
        && buckets[..] == old(buckets[..]) && numBuckets == old(numBuckets)
        && numTombstones == old(numTombstones) && numEntries == old(numEntries) && slot == at
    {
      slot := at;
      var newNumEntries := numEntries + 1;
      if newNumEntries * 4 >= numBuckets * 3 {
        DoubledSize(numBuckets);
        Grow(numBuckets * 2);
        var found;
        found, slot := LookupBucketFor(key);
      } else if numBuckets - (newNumEntries + numTombstones) <= numBuckets / 8 {
        GrownSizeOk(numBuckets);
        Grow(numBuckets);
        var found;
        found, slot := LookupBucketFor(key);
      }
    }

    /** Makes room for key, not stored, and accounts for the bucket it will take. */
    method InsertIntoBucketImpl(key: K, at: nat) returns (slot: nat)
      requires Valid() && numBuckets <= MAX_BUCKETS && !Reserved(info, key) && key !in Contents()
      requires buckets != null ==> Absent(buckets[..], key) && MayTake(info, buckets[..], key, at)
      modifies this, buckets
      ensures buckets != null && (buckets == old(buckets) || fresh(buckets))
      ensures info.emptyKey != info.tombstoneKey && buckets.Length == numBuckets <= 0x8000_0000
      ensures TableOk(info, buckets[..]) && Absent(buckets[..], key) && MayTake(info, buckets[..], key, slot)
      ensures numEntries == LiveCount(info, buckets[..]) + One(!Live(info, buckets[slot]))
      ensures numTombstones + One(buckets[slot].key == info.tombstoneKey) == TombCount(info, buckets[..])
      ensures numEntries + numTombstones < numBuckets && numEntries * 4 < numBuckets * 3
      ensures numEntries <= old(numEntries) + 1 && numBuckets == RoomyBuckets(old(numEntries), old(numBuckets))
      ensures MustGrow(old(numEntries), old(numTombstones), old(numBuckets)) ==>
        Contents() == Kept(info, old(Contents())) && numTombstones == 0
      ensures !MustGrow(old(numEntries), old(numTombstones), old(numBuckets)) ==>
        && grows == old(grows) && buckets == old(buckets)
        && buckets[..] == old(buckets[..]) && numBuckets == old(numBuckets)
        && numTombstones <= old(numTombstones) && slot == at
    {
      slot := MakeRoom(key, at);
      TombstoneCounted(info, buckets[..], slot);
      if buckets[slot].key == info.emptyKey {
        numEntries := numEntries + 1;
      } else if buckets[slot].key == info.tombstoneKey {
        numEntries := numEntries + 1;
        numTombstones := numTombstones - 1;
      } else {
        assert info.isPurgeable(buckets[slot].value);
      }
    }

    /** Puts in a key that is not stored. */
    method InsertIntoBucket(key: K, value: V, at: nat) returns (slot: nat)
      requires Valid() && numBuckets <= MAX_BUCKETS && !Reserved(info, key) && key !in Contents()
      requires buckets != null ==> Absent(buckets[..], key) && MayTake(info, buckets[..], key, at)
      modifies this, buckets
      ensures Valid() && buckets != null && (buckets == old(buckets) || fresh(buckets))
      ensures slot < numBuckets && buckets[slot] == Bucket(key, value)
      ensures key in Contents() && Contents()[key] == value
      ensures Purged(info, Contents() - {key}, old(Contents()))
      ensures numEntries <= old(numEntries) + 1 && numBuckets == RoomyBuckets(old(numEntries), old(numBuckets))
      ensures MustGrow(old(numEntries), old(numTombstones), old(numBuckets)) ==>
        Contents() == Kept(info, old(Contents()))[key := value] && numTombstones == 0
      ensures !MustGrow(old(numEntries), old(numTombstones), old(numBuckets)) ==>
        grows == old(grows) && buckets == old(buckets) && numTombstones <= old(numTombstones)
        && buckets[..] == old(buckets[..])[at := Bucket(key, value)] && slot == at
    {
      ghost var before := Contents();
      slot := InsertIntoBucketImpl(key, at);
      ghost var b := buckets[..];
      TakeSlot(info, b, slot, key, value);
      TakeAfterGrow(info, b, slot, key, value, before);
      buckets[slot] := Bucket(key, value);
      assert buckets[..] == b[slot := Bucket(key, value)];
    }

    /** insert: keeps a value that is already there. */
    method TryEmplace(key: K, value: V) returns (slot: nat, inserted: bool)
      requires Valid() && numBuckets <= MAX_BUCKETS && !Reserved(info, key)
      modifies this, buckets
      ensures Valid() && buckets != null && (buckets == old(buckets) || fresh(buckets))
      ensures slot < numBuckets && buckets[slot].key == key
      ensures inserted <==> key !in old(Contents())
      ensures !inserted ==> Contents() == old(Contents())
      ensures inserted ==> key in Contents() && Contents()[key] == value
                           && Purged(info, Contents() - {key}, old(Contents()))
      ensures inserted && MustGrow(old(numEntries), old(numTombstones), old(numBuckets)) ==>
        Contents() == Kept(info, old(Contents()))[key := value] && numTombstones == 0
      ensures inserted && !MustGrow(old(numEntries), old(numTombstones), old(numBuckets)) ==>
        MayTake(info, old(buckets[..]), key, slot) && buckets[..] == old(buckets[..])[slot := Bucket(key, value)]
      ensures !inserted || !MustGrow(old(numEntries), old(numTombstones), old(numBuckets)) ==>
        grows == old(grows) && buckets == old(buckets) && numTombstones <= old(numTombstones)
      ensures numEntries <= old(numEntries) + 1
      ensures numBuckets == if inserted then RoomyBuckets(old(numEntries), old(numBuckets)) else old(numBuckets)
    {
      var found, at := LookupBucketFor(key);
      if found { return at, false; }
      slot := InsertIntoBucket(key, value, at);
      inserted := true;
    }

    /** operator[]: the bucket of key, put in with the default value when it is not there. */
    method FindAndConstruct(key: K) returns (slot: nat)
      requires Valid() && numBuckets <= MAX_BUCKETS && !Reserved(info, key)
      modifies this, buckets
      ensures Valid() && buckets != null && (buckets == old(buckets) || fresh(buckets))
      ensures slot < numBuckets && buckets[slot].key == key
      ensures key in old(Contents()) ==> Contents() == old(Contents())
      ensures key !in old(Contents()) ==>
        key in Contents() && Contents()[key] == zero && Purged(info, Contents() - {key}, old(Contents()))
      ensures key !in old(Contents()) && MustGrow(old(numEntries), old(numTombstones), old(numBuckets)) ==>
        Contents() == Kept(info, old(Contents()))[key := zero]
      ensures numEntries <= old(numEntries) + 1
      ensures numBuckets ==
        if key in old(Contents()) then old(numBuckets) else RoomyBuckets(old(numEntries), old(numBuckets))
    {
      var found, at := LookupBucketFor(key);
      if found { return at; }
      slot := InsertIntoBucket(key, zero, at);
    }

    /** map[key] = value */
    method Assign(key: K, value: V)
      requires Valid() && numBuckets <= MAX_BUCKETS && !Reserved(info, key)
      modifies this, buckets
      ensures Valid() && (buckets == old(buckets) || fresh(buckets))
      ensures key in Contents() && Contents()[key] == value
      ensures Purged(info, Contents() - {key}, old(Contents()) - {key})
      ensures key in old(Contents()) ==> Contents() == old(Contents())[key := value]
      ensures key !in old(Contents()) && MustGrow(old(numEntries), old(numTombstones), old(numBuckets)) ==>
        Contents() == Kept(info, old(Contents()))[key := value]
      ensures numEntries <= old(numEntries) + 1
      ensures numBuckets ==
        if key in old(Contents()) then old(numBuckets) else RoomyBuckets(old(numEntries), old(numBuckets))
    {
      var slot := FindAndConstruct(key);
      ghost var b := buckets[..];
      RewriteSlot(info, b, slot, value);
      Rewritten(info, Stored(info, b), key, zero, value, old(Contents()));
      buckets[slot] := Bucket(buckets[slot].key, value);
      assert buckets[..] == b[slot := Bucket(key, value)];
    }

    /** One turn of the loop of insert over a range; all are the keys there may be in the end. */
    method InsertNext(ghost start: map<K, V>, ghost all: set<K>, pairs: seq<(K, V)>, i: nat)
      requires Valid() && i < |pairs| && !Reserved(info, pairs[i].0) && FilledTo(info, start, pairs, i, Contents())
      requires Contents().Keys <= all && pairs[i].0 in all && numBuckets <= MAX_BUCKETS
      requires HasRoom(numEntries, numTombstones, |pairs| - i, numBuckets) || |all| <= MAX_ENTRIES
      modifies this, buckets
      ensures Valid() && (buckets == old(buckets) || fresh(buckets)) && FilledTo(info, start, pairs, i + 1, Contents())
      ensures Contents().Keys <= all && numBuckets <= MAX_BUCKETS && numEntries <= old(numEntries) + 1
      ensures HasRoom(old(numEntries), old(numTombstones), |pairs| - i, old(numBuckets)) ==>
        && grows == old(grows) && numBuckets == old(numBuckets) && buckets == old(buckets)
        && HasRoom(numEntries, numTombstones, |pairs| - i - 1, numBuckets)
    {
      ghost var before := Contents();
      if HasRoom(numEntries, numTombstones, |pairs| - i, numBuckets) {
        RoomForNext(numEntries, numTombstones, |pairs| - i, numBuckets);
      } else if pairs[i].0 !in before {
        EntriesCounted(this);
        OneMissing(before.Keys, all, pairs[i].0);
        RoomForNext(numEntries, numTombstones, 1, numBuckets);
      }
      var slot, inserted := TryEmplace(pairs[i].0, pairs[i].1);
      FilledNext(info, start, pairs, i, before, Contents(), inserted);
      OnlyOneAdded(before, Contents(), pairs[i].0, inserted);
    }

    /** insert of a range. A table without tombstones that has room for it all never grows. */
    method InsertRange(pairs: seq<(K, V)>)
      requires Valid() && numBuckets <= MAX_BUCKETS
      requires HasRoom(numEntries, numTombstones, |pairs|, numBuckets) || |Filled(pairs, Contents())| <= MAX_ENTRIES
      requires forall i :: 0 <= i < |pairs| ==> !Reserved(info, pairs[i].0)
      modifies this, buckets
      ensures Valid() && (buckets == old(buckets) || fresh(buckets)) && numBuckets <= MAX_BUCKETS
      ensures numEntries <= old(numEntries) + |pairs|
      ensures HasRoom(old(numEntries), old(numTombstones), |pairs|, old(numBuckets)) ==>
        grows == old(grows) && numBuckets == old(numBuckets) && buckets == old(buckets)
      ensures NoneOver(info, pairs, old(Contents())) ==> Purged(info, Contents(), Filled(pairs, old(Contents())))
    {
      ghost var start := Contents();
      KeysInAll(pairs, start);
      InsertEach(start, Filled(pairs, start).Keys, pairs);
      assert pairs[..|pairs|] == pairs;
    }

    /** The loop of insert over a range. */
    method InsertEach(ghost start: map<K, V>, ghost all: set<K>, pairs: seq<(K, V)>)
      requires Valid() && Contents().Keys <= all && numBuckets <= MAX_BUCKETS
      requires HasRoom(numEntries, numTombstones, |pairs|, numBuckets) || |all| <= MAX_ENTRIES
      requires forall i :: 0 <= i < |pairs| ==> !Reserved(info, pairs[i].0) && pairs[i].0 in all
      requires FilledTo(info, start, pairs, 0, Contents())
      modifies this, buckets
      ensures Valid() && (buckets == old(buckets) || fresh(buckets)) && numBuckets <= MAX_BUCKETS
      ensures numEntries <= old(numEntries) + |pairs| && FilledTo(info, start, pairs, |pairs|, Contents())
      ensures HasRoom(old(numEntries), old(numTombstones), |pairs|, old(numBuckets)) ==>
        grows == old(grows) && numBuckets == old(numBuckets) && buckets == old(buckets)
    {
      ghost var roomy := HasRoom(numEntries, numTombstones, |pairs|, numBuckets);
      var i := 0;
      while i < |pairs|
        invariant 0 <= i <= |pairs| && Valid() && numBuckets <= MAX_BUCKETS
        invariant (buckets == old(buckets) || fresh(buckets)) && numEntries <= old(numEntries) + i
        invariant Contents().Keys <= all && FilledTo(info, start, pairs, i, Contents())
        invariant roomy ==> grows == old(grows) && numBuckets == old(numBuckets) && buckets == old(buckets)
        invariant roomy ==> HasRoom(numEntries, numTombstones, |pairs| - i, numBuckets)
      {
        InsertNext(start, all, pairs, i);
        i := i + 1;
      }
    }

    /** Built from a range: sized for it, then filled one pair at a time. */
    constructor FromRange(info: Info<K, V>, zero: V, pairs: seq<(K, V)>)
      requires info.emptyKey != info.tombstoneKey && |pairs| <= MAX_RESERVE
      requires forall i :: 0 <= i < |pairs| ==> !Reserved(info, pairs[i].0)
      ensures Valid() && grows == 0 && numBuckets == MinBuckets(|pairs|)
      ensures this.info == info && this.zero == zero && (buckets != null ==> fresh(buckets))
      ensures NoneOver(info, pairs, map[]) ==> Purged(info, Contents(), Filled(pairs, map[]))
    {
      this.info := info;
      this.zero := zero;
      buckets, numBuckets, numEntries, numTombstones, grows := null, 0, 0, 0, 0;
      new;
      InitFor(|pairs|);
      FreshHasRoom(|pairs|);
      InsertRange(pairs);
    }

    // ------------------------------------------------------------------ iterating

    /** The first live bucket from p on, or the end. */
    method AdvancePastEmptyBuckets(p: nat) returns (q: nat)
      requires Valid() && buckets != null && p <= numBuckets
      ensures p <= q <= numBuckets && (q < numBuckets ==> Live(info, buckets[q]))
      ensures forall j :: p <= j < q ==> !Live(info, buckets[j])
    {
      q := p;
      while q != numBuckets && (buckets[q].key == info.emptyKey || buckets[q].key == info.tombstoneKey)
        invariant p <= q <= numBuckets
        invariant forall j :: p <= j < q ==> !Live(info, buckets[j])
      {
        q := q + 1;
      }
    }

    /** begin(): the end at once when there are no entries. */
    method Begin() returns (p: nat)
      requires Valid()
      ensures p <= numBuckets && (p < numBuckets ==> Live(info, buckets[p]))
      ensures forall j :: 0 <= j < p ==> !Live(info, buckets[j])
    {
      if numEntries == 0 {
        if buckets != null { NoneLive(info, buckets[..]); }
        return numBuckets;
      }
      p := AdvancePastEmptyBuckets(0);
    }

    /** operator++ */
    method Next(p: nat) returns (q: nat)
      requires Valid() && p < numBuckets && Live(info, buckets[p])
      ensures p < q <= numBuckets && (q < numBuckets ==> Live(info, buckets[q]))
      ensures forall j :: p < j < q ==> !Live(info, buckets[j])
    {
      q := AdvancePastEmptyBuckets(p + 1);
    }

    // ------------------------------------------------------------------ removing

    /** Empties the table and sizes it for what it held; asks init for buckets where init expects entries. */
    method ShrinkAndClear()
      requires Valid() && numBuckets <= MAX_BUCKETS && (numEntries == 0 || numEntries * 4 < numBuckets)
      modifies this, buckets
      ensures Valid() && Contents() == map[] && numEntries == 0 && numTombstones == 0
      ensures buckets == old(buckets) || buckets == null || fresh(buckets)
      ensures grows == old(grows)
      ensures numBuckets == ShrunkBuckets(old(numEntries), old(numBuckets))
      ensures numBuckets == ShrunkFor(old(numEntries)) <==>
        old(numEntries) == 0 || ShrunkFor(old(numEntries)) == old(numBuckets)
      ensures old(numEntries) > 0 && old(numBuckets) > MIN_BUCKETS ==>
        old(numEntries) * 4 + 3 < numBuckets * 3 && numBuckets <= old(numBuckets)
    {
      var newNumBuckets := ShrunkSize();
      if newNumBuckets > 0 { ShrunkDoubles(numEntries); }
      if newNumBuckets == numBuckets {
        InitEmpty();
        return;
      }
      InitFor(newNumBuckets);
    }

    method ShrunkSize() returns (size: nat)
      requires Valid() && numBuckets <= MAX_BUCKETS && (numEntries == 0 || numEntries * 4 < numBuckets)
      ensures size == ShrunkFor(numEntries)
      ensures numEntries > 0 ==> numEntries <= size <= MAX_RESERVE && size >= MIN_BUCKETS
      ensures numEntries > 0 && numBuckets > MIN_BUCKETS ==>
        size < numBuckets && MinBuckets(size) <= numBuckets && numEntries * 4 + 3 < MinBuckets(size) * 3
    {
      if numEntries == 0 { return 0; }
      Pow2Values();
      var k := Log2Ceil32(numEntries);
      ShrinkSizes(numEntries, k, numBuckets);
      CeilIsNextPow2(numEntries, k);
      size := if Pow2(k + 1) < MIN_BUCKETS then MIN_BUCKETS else Pow2(k + 1);
      MinBucketsOk(size);
    }

    method Clear()
      requires Valid() && numBuckets <= MAX_BUCKETS
      modifies this, buckets
      ensures Valid() && Contents() == map[] && numEntries == 0 && numTombstones == 0
      ensures numBuckets <= old(numBuckets) && grows == old(grows)
      ensures numBuckets == ClearedBuckets(old(numEntries), old(numTombstones), old(numBuckets))
      ensures buckets == old(buckets) || buckets == null || fresh(buckets)
    {
      if numEntries == 0 && numTombstones == 0 {
        if buckets != null {
          StoredCount(info, buckets[..]);
        }
        return;
      }
      if numEntries * 4 < numBuckets && numBuckets > MIN_BUCKETS {
        ShrinkAndClear();
        return;
      }
      InitEmpty();
    }

    /** Frees an empty table; rehashes a large, nearly empty one. */
    method Compact()
      requires Valid() && numBuckets <= MAX_BUCKETS
      modifies this, buckets
      ensures Valid() && (buckets == old(buckets) || buckets == null || fresh(buckets))
      ensures Contents() ==
        if MustCompact(old(numEntries), old(numBuckets)) then Kept(info, old(Contents())) else old(Contents())
      ensures numBuckets <= old(numBuckets) && numEntries <= old(numEntries)
      ensures numBuckets == if old(numEntries) == 0 then 0
        else if MustCompact(old(numEntries), old(numBuckets)) then GrownSize(old(numEntries) * 2) else old(numBuckets)
    {
      if numEntries == 0 {
        if buckets != null { StoredCount(info, buckets[..]); }
        ShrinkAndClear();
      } else if numBuckets / 16 > numEntries && numBuckets > MIN_COMPACT {
        GrownSizeOk(numEntries * 2);
        CompactShrinks(numEntries, numBuckets);
        Grow(numEntries * 2);
      }
    }

    method Erase(key: K) returns (erased: bool)
      requires Valid() && numBuckets <= MAX_BUCKETS && !Reserved(info, key)
      modifies this, buckets
      ensures Valid() && (buckets == old(buckets) || buckets == null || fresh(buckets))
      ensures erased <==> key in old(Contents())
      ensures !erased ==> Contents() == old(Contents())
      ensures !erased ==> numBuckets == old(numBuckets)
      ensures erased ==> old(numEntries) > 0
      ensures erased && MustCompact(old(numEntries) - 1, old(numBuckets)) ==>
        Contents() == Kept(info, old(Contents()) - {key})
      ensures erased && !MustCompact(old(numEntries) - 1, old(numBuckets)) ==> Contents() == old(Contents()) - {key}
      ensures erased ==> numBuckets == if old(numEntries) == 1 then 0
        else if MustCompact(old(numEntries) - 1, old(numBuckets)) then GrownSize((old(numEntries) - 1) * 2)
        else old(numBuckets)
      ensures numBuckets <= old(numBuckets) && numEntries <= old(numEntries)
    {
      var found, at := LookupBucketFor(key);
      if !found { return false; }
      ghost var b := buckets[..];
      var junk: V := *;                       // the destroyed value's slot
      EraseKeepsTable(info, b, at, junk);
      StoredAfterErase(info, b, at, junk);
      CountsAfter(info, b, at, Bucket(info.tombstoneKey, junk));
      buckets[at] := Bucket(info.tombstoneKey, junk);
      assert buckets[..] == b[at := Bucket(info.tombstoneKey, junk)];
      numEntries := numEntries - 1;
      numTombstones := numTombstones + 1;
      Compact();
      erased := true;
    }

    /** Room for n entries in all. */
    method Reserve(n: nat)
      requires Valid() && numBuckets <= MAX_BUCKETS && n <= MAX_RESERVE
      modifies this, buckets
      ensures Valid() && (buckets == old(buckets) || fresh(buckets))
      ensures numBuckets == if MinBuckets(n) > old(numBuckets) then MinBuckets(n) else old(numBuckets)
      ensures numBuckets <= MAX_BUCKETS && numEntries <= old(numEntries)
      ensures Contents() == if MinBuckets(n) > old(numBuckets) then Kept(info, old(Contents())) else old(Contents())
    {
      var size := MinBucketsFor(n);
      if n > 0 { MinBucketsOk(n); }
      if size > numBuckets {
        GrownSizeOk(size);
        Grow(size);
      }
    }
  }

  /** operator==: the same size, and every entry on the left found equal on the right. */
  method MapsEqual<K(==, 0), V(==, 0)>(lhs: DenseMap<K, V>, rhs: DenseMap<K, V>) returns (eq: bool)
    requires lhs.Valid() && rhs.Valid() && lhs.info == rhs.info
    ensures eq <==> lhs.Contents() == rhs.Contents()
  {
    EntriesCounted(lhs);
    EntriesCounted(rhs);
    if lhs.numEntries != rhs.numEntries { return false; }
    eq := AllEntriesFound(lhs, rhs);
    if eq { SubmapSameSize(lhs.Contents(), rhs.Contents()); }
  }

  /** The loop of operator==. */
  method AllEntriesFound<K(==, 0), V(==, 0)>(lhs: DenseMap<K, V>, rhs: DenseMap<K, V>) returns (all: bool)
    requires lhs.Valid() && rhs.Valid() && lhs.info == rhs.info
    ensures all <==> forall k :: k in lhs.Contents() ==> k in rhs.Contents() && rhs.Contents()[k] == lhs.Contents()[k]
  {
    if lhs.buckets == null { return true; }
    ghost var b := lhs.buckets[..];
    var p := lhs.Begin();
    while p != lhs.numBuckets
      invariant p <= lhs.numBuckets && (p < lhs.numBuckets ==> Live(lhs.info, b[p]))
      invariant AllIn(lhs.info, b, p, rhs.Contents())
      decreases lhs.numBuckets - p
    {
      StoredAt(lhs.info, b, p);
      var same := FoundWithValue(rhs, lhs.buckets[p]);
      if !same { return false; }
      var q := lhs.Next(p);
      p := q;
    }
    AllInAll(lhs.info, b, rhs.Contents());
    all := true;
  }

  method FoundWithValue<K(==, 0), V(==, 0)>(m: DenseMap<K, V>, kv: Bucket<K, V>) returns (same: bool)
    requires m.Valid() && Live(m.info, kv)
    ensures same <==> kv.key in m.Contents() && m.Contents()[kv.key] == kv.value
  {
    var found, at := m.LookupBucketFor(kv.key);
    if !found { return false; }
    StoredAt(m.info, m.buckets[..], at);
    same := m.buckets[at].value == kv.value;
  }

  /** A loop from begin to end: the buckets it stops at. */
  method Walk<K(==, 0), V(==, 0)>(m: DenseMap<K, V>) returns (stops: seq<nat>)
    requires m.Valid()
    ensures stops == if m.buckets == null then [] else IterFrom(m.info, m.buckets[..], 0)
  {
    stops := [];
    if m.buckets == null { return; }
    ghost var b := m.buckets[..];
    var p := m.Begin();
    IterSkips(m.info, b, 0, p);
    while p != m.numBuckets
      invariant p <= m.numBuckets && (p < m.numBuckets ==> Live(m.info, b[p]))
      invariant stops + IterFrom(m.info, b, p) == IterFrom(m.info, b, 0)
      decreases m.numBuckets - p
    {
      var q := m.Next(p);
      IterSkips(m.info, b, p + 1, q);
      assert stops + ([p] + IterFrom(m.info, b, q)) == stops + [p] + IterFrom(m.info, b, q);
      stops, p := stops + [p], q;
    }
  }

  lemma EntriesCounted<K(0), V(0)>(m: DenseMap<K, V>)
    requires m.Valid()
    ensures |m.Contents()| == m.numEntries
  {
    if m.buckets != null { StoredCount(m.info, m.buckets[..]); }
  }

  /** The live buckets before p are all in r. */
  ghost predicate AllIn<K, V>(info: Info<K, V>, b: seq<Bucket<K, V>>, p: nat, r: map<K, V>)
    requires p <= |b|
  {
    forall j :: 0 <= j < p && Live(info, b[j]) ==> b[j].key in r && r[b[j].key] == b[j].value
  }

  lemma AllInAll<K, V>(info: Info<K, V>, b: seq<Bucket<K, V>>, r: map<K, V>)
    requires NoDup(info, b) && AllIn(info, b, |b|, r)
    ensures forall k :: k in Stored(info, b) ==> k in r && r[k] == Stored(info, b)[k]
  {}

  // ------------------------------------------------------------------ lemmas behind the methods

  /** The live buckets from p on, in order. */
  function IterFrom<K(==), V>(info: Info<K, V>, b: seq<Bucket<K, V>>, p: nat): seq<nat>
    decreases |b| - p
  {
    if p >= |b| then []
    else if Live(info, b[p]) then [p] + IterFrom(info, b, p + 1)
    else IterFrom(info, b, p + 1)
  }

  lemma {:induction false} IterShape<K, V>(info: Info<K, V>, b: seq<Bucket<K, V>>, p: nat)
    requires p <= |b|
    ensures forall x :: x in IterFrom(info, b, p) <==> p <= x < |b| && Live(info, b[x])
    ensures |IterFrom(info, b, p)| == LiveCount(info, b) - LiveCount(info, b[..p])
    decreases |b| - p
  {
    if p == |b| {
      assert b[..p] == b;
    } else {
      assert b[..p + 1][..p] == b[..p];
      IterShape(info, b, p + 1);
    }
  }

  lemma {:induction false} IterRises<K, V>(info: Info<K, V>, b: seq<Bucket<K, V>>, p: nat)
    requires p <= |b|
    ensures var it := IterFrom(info, b, p); forall x, y :: 0 <= x < y < |it| ==> it[x] < it[y]
    decreases |b| - p
  {
    if p < |b| {
      IterRises(info, b, p + 1);
      IterShape(info, b, p + 1);
      var rest := IterFrom(info, b, p + 1);
      forall y | 0 <= y < |rest| ensures p < rest[y] { assert rest[y] in rest; }
    }
  }

  /** Iteration meets each stored entry exactly once, in bucket order, and as many as there are entries. */
  lemma IterYieldsEntries<K, V>(info: Info<K, V>, b: seq<Bucket<K, V>>)
    requires NoDup(info, b)
    ensures var it := IterFrom(info, b, 0);
      && |it| == |Stored(info, b)| == LiveCount(info, b)
      && (forall x :: 0 <= x < |it| ==> it[x] < |b| && Live(info, b[it[x]]))
      && (forall x, y :: 0 <= x < |it| && 0 <= y < |it| && x != y ==> b[it[x]].key != b[it[y]].key)
      && (forall k :: k in Stored(info, b) ==> exists x :: 0 <= x < |it| && b[it[x]] == Bucket(k, Stored(info, b)[k]))
  {
    IterShape(info, b, 0);
    IterRises(info, b, 0);
    StoredCount(info, b);
    var it := IterFrom(info, b, 0);
    forall x | 0 <= x < |it| ensures it[x] < |b| && Live(info, b[it[x]]) {
      assert it[x] in it;
    }
    forall x, y | 0 <= x < |it| && 0 <= y < |it| && x != y ensures b[it[x]].key != b[it[y]].key {
      if x < y { assert it[x] < it[y]; } else { assert it[y] < it[x]; }
    }
    forall k | k in Stored(info, b)
      ensures exists x :: 0 <= x < |it| && b[it[x]] == Bucket(k, Stored(info, b)[k])
    {
      var j := StoredSomewhere(info, b, k);
      assert j in it;
      var x :| 0 <= x < |it| && it[x] == j;
      assert b[it[x]] == Bucket(k, Stored(info, b)[k]);
    }
  }

  /** What begin and ++ do is one step of the iteration: nothing live is skipped. */
  lemma {:induction false} IterSkips<K, V>(info: Info<K, V>, b: seq<Bucket<K, V>>, p: nat, q: nat)
    requires p <= q <= |b| && forall j :: p <= j < q ==> !Live(info, b[j])
    ensures IterFrom(info, b, p) == IterFrom(info, b, q)
    decreases q - p
  {
    if p < q { IterSkips(info, b, p + 1, q); }
  }

  lemma NoneLive<K, V>(info: Info<K, V>, b: seq<Bucket<K, V>>)
    requires LiveCount(info, b) == 0
    ensures forall j :: 0 <= j < |b| ==> !Live(info, b[j])
  {}

  lemma SubmapSameSize<K, V>(l: map<K, V>, r: map<K, V>)
    requires |l| == |r| && forall k :: k in l ==> k in r && r[k] == l[k]
    ensures l == r
  {
    assert |l.Keys| == |r.Keys| && l.Keys <= r.Keys;
    assert r.Keys == l.Keys + (r.Keys - l.Keys);
    assert |r.Keys| == |l.Keys| + |r.Keys - l.Keys|;
  }

  ghost predicate DistinctKeys<K, V>(pairs: seq<(K, V)>) {
    forall i, j :: 0 <= i < j < |pairs| ==> pairs[i].0 != pairs[j].0
  }

  /** start with the pairs put in one after the other: a key that is there already keeps its value. */
  function Filled<K(==), V>(pairs: seq<(K, V)>, start: map<K, V>): map<K, V> {
    if pairs == [] then start
    else
      var n := |pairs| - 1;
      var before := Filled(pairs[..n], start);
      if pairs[n].0 in before then before else before[pairs[n].0 := pairs[n].1]
  }

  lemma {:induction false} FilledKeys<K, V>(pairs: seq<(K, V)>, start: map<K, V>, k: K)
    ensures k in Filled(pairs, start) <==> k in start || exists i :: 0 <= i < |pairs| && pairs[i].0 == k
    decreases |pairs|
  {
    if pairs != [] {
      var n := |pairs| - 1;
      FilledKeys(pairs[..n], start, k);
      if exists i :: 0 <= i < n && pairs[..n][i].0 == k {
        var i :| 0 <= i < n && pairs[..n][i].0 == k;
        assert pairs[i].0 == k;
      }
      if exists i :: 0 <= i < |pairs| && pairs[i].0 == k {
        var i :| 0 <= i < |pairs| && pairs[i].0 == k;
        assert i < n ==> pairs[..n][i].0 == k;
      }
    }
  }

  /** So of several pairs with a key the first one counts, and none does if the key was there to begin with. */
  lemma {:induction false} FirstPairWins<K, V>(pairs: seq<(K, V)>, start: map<K, V>, i: nat)
    requires i < |pairs| && forall j :: 0 <= j < i ==> pairs[j].0 != pairs[i].0
    ensures pairs[i].0 in Filled(pairs, start)
    ensures Filled(pairs, start)[pairs[i].0] == if pairs[i].0 in start then start[pairs[i].0] else pairs[i].1
    decreases |pairs|
  {
    var n := |pairs| - 1;
    if i < n {
      FirstPairWins(pairs[..n], start, i);
    } else {
      FilledKeys(pairs[..n], start, pairs[n].0);
      if pairs[n].0 in start { StartIsKept(pairs[..n], start, pairs[n].0); }
    }
  }

  lemma {:induction false} StartIsKept<K, V>(pairs: seq<(K, V)>, start: map<K, V>, k: K)
    requires k in start
    ensures k in Filled(pairs, start) && Filled(pairs, start)[k] == start[k]
    decreases |pairs|
  {
    if pairs != [] { StartIsKept(pairs[..|pairs| - 1], start, k); }
  }

  lemma OneMissing<K>(a: set<K>, b: set<K>, k: K)
    requires a <= b && k in b && k !in a
    ensures |a| < |b|
  {
    assert b == a + (b - a) && k in b - a;
    assert |b| == |a| + |b - a|;
  }

  lemma OnlyOneAdded<K, V>(before: map<K, V>, after: map<K, V>, k: K, inserted: bool)
    requires if inserted then (after - {k}).Keys <= before.Keys else after == before
    ensures after.Keys <= before.Keys + {k}
  {
    forall q | q in after && q != k && inserted ensures q in before { assert q in after - {k}; }
  }

  /** No pair comes to a key that has a value which may be dropped. */
  ghost predicate NoneOver<K, V>(info: Info<K, V>, pairs: seq<(K, V)>, start: map<K, V>) {
    forall i :: 0 <= i < |pairs| ==> !ComesOver(info, pairs, start, i)
  }

  predicate ComesOver<K(==), V>(info: Info<K, V>, pairs: seq<(K, V)>, start: map<K, V>, i: nat)
    requires i < |pairs|
  {
    var before := Filled(pairs[..i], start);
    pairs[i].0 in before && info.isPurgeable(before[pairs[i].0])
  }

  /** Pairs with different keys come over nothing but what was there before them. */
  lemma DistinctComeOver<K, V>(info: Info<K, V>, pairs: seq<(K, V)>, start: map<K, V>)
    requires DistinctKeys(pairs)
    ensures NoneOver(info, pairs, start) <==>
      forall i :: 0 <= i < |pairs| && pairs[i].0 in start ==> !info.isPurgeable(start[pairs[i].0])
  {
    forall i | 0 <= i < |pairs|
      ensures ComesOver(info, pairs, start, i) <==> pairs[i].0 in start && info.isPurgeable(start[pairs[i].0])
    {
      FilledKeys(pairs[..i], start, pairs[i].0);
      if pairs[i].0 in start { StartIsKept(pairs[..i], start, pairs[i].0); }
    }
  }

  /** m is start with the first i pairs put in, less some purgeable entries. */
  ghost predicate FilledTo<K, V>(info: Info<K, V>, start: map<K, V>, pairs: seq<(K, V)>, i: nat, m: map<K, V>)
    requires i <= |pairs|
  {
    NoneOver(info, pairs, start) ==> Purged(info, m, Filled(pairs[..i], start))
  }

  lemma FreshHasRoom(n: nat)
    requires n <= MAX_RESERVE
    ensures HasRoom(0, 0, n, MinBuckets(n)) && MinBuckets(n) <= MAX_BUCKETS
  {
    if n > 0 { MinBucketsOk(n); }
  }

  lemma KeysInAll<K, V>(pairs: seq<(K, V)>, start: map<K, V>)
    ensures start.Keys <= Filled(pairs, start).Keys
    ensures forall i :: 0 <= i < |pairs| ==> pairs[i].0 in Filled(pairs, start).Keys
  {
    forall k | k in start ensures k in Filled(pairs, start) { FilledKeys(pairs, start, k); }
    forall i | 0 <= i < |pairs| ensures pairs[i].0 in Filled(pairs, start) { FilledKeys(pairs, start, pairs[i].0); }
  }

  lemma FilledNext<K, V>(info: Info<K, V>, start: map<K, V>, pairs: seq<(K, V)>, i: nat,
                         before: map<K, V>, after: map<K, V>, inserted: bool)
    requires i < |pairs| && FilledTo(info, start, pairs, i, before)
    requires inserted <==> pairs[i].0 !in before
    requires !inserted ==> after == before
    requires inserted ==> pairs[i].0 in after && after[pairs[i].0] == pairs[i].1
                          && Purged(info, after - {pairs[i].0}, before)
    ensures FilledTo(info, start, pairs, i + 1, after)
  {
    if NoneOver(info, pairs, start) {
      assert pairs[..i + 1][..i] == pairs[..i] && !ComesOver(info, pairs, start, i);
      var k := pairs[i].0;
      forall q | q in after && q != k ensures q in before && after[q] == before[q] {
        if inserted { assert q in after - {k}; }
      }
      forall q | q in before && q != k && q !in after ensures info.isPurgeable(before[q]) { assert q !in after - {k}; }
    }
  }

  /** The first c probes for key met neither it nor an empty bucket. */
  ghost predicate Probed<K, V>(info: Info<K, V>, b: seq<Bucket<K, V>>, key: K, c: nat)
    requires |b| > 0
  {
    && ClearPath(info, b, info.hash(key), c)
    && forall m :: 0 <= m < c ==> b[Visit(info.hash(key), m, |b|)].key != key
  }

  /** Probing for key comes to an empty bucket without meeting key. */
  ghost predicate ProbeFails<K, V>(info: Info<K, V>, b: seq<Bucket<K, V>>, key: K)
    requires |b| > 0
  {
    exists c: nat :: Probed(info, b, key, c) && b[Visit(info.hash(key), c, |b|)].key == info.emptyKey
  }

  /** After c probes for key, first is the first usable bucket met, if any was. */
  ghost predicate Scanned<K, V>(info: Info<K, V>, b: seq<Bucket<K, V>>, key: K, c: nat, first: Option<nat>)
    requires |b| > 0
  {
    && Probed(info, b, key, c)
    && (first.None? ==> NoneUsable(info, b, info.hash(key), c))
    && (first.Some? ==> MayTake(info, b, key, first.value))
  }

  lemma ScanEnds<K, V>(info: Info<K, V>, b: seq<Bucket<K, V>>, key: K, c: nat, first: Option<nat>)
    requires c < |b| && Scanned(info, b, key, c, first) && b[Visit(info.hash(key), c, |b|)].key == info.emptyKey
    ensures ProbeFails(info, b, key)
    ensures MayTake(info, b, key, if first.Some? then first.value else Visit(info.hash(key), c, |b|))
  {}

  /** A probe that meets neither key nor an empty bucket falls short of the one known to be empty. */
  lemma ScanOn<K, V>(info: Info<K, V>, b: seq<Bucket<K, V>>, key: K, c: nat, first: Option<nat>, holeAt: nat)
    requires c <= holeAt < |b| && Scanned(info, b, key, c, first)
    requires b[Visit(info.hash(key), holeAt, |b|)].key == info.emptyKey
    requires var x := b[Visit(info.hash(key), c, |b|)]; x.key != key && x.key != info.emptyKey
    ensures c + 1 <= holeAt
    ensures var j := Visit(info.hash(key), c, |b|);
      Scanned(info, b, key, c + 1, if first.None? && Usable(info, b[j]) then Some(j) else first)
  {}

  /** Some probe among the first |b| meets an empty bucket. */
  lemma ProbesToEmpty<K, V>(info: Info<K, V>, b: seq<Bucket<K, V>>, h: nat) returns (c: nat)
    requires IsPow2(|b|) && exists j :: 0 <= j < |b| && b[j].key == info.emptyKey
    ensures c < |b| && b[Visit(h, c, |b|)].key == info.emptyKey
  {
    var j :| 0 <= j < |b| && b[j].key == info.emptyKey;
    c := EveryBucketVisited(h, |b|, j);
  }

  lemma FirstBucket(h: nat, n: nat)
    requires IsPow2(n)
    ensures And(h, n - 1) == Visit(h, 0, n)
  {
    var p := ExponentOf(n);
    MaskIsMod(h, p);
    RemIsMod(h, n);
  }

  lemma NextBucket(h: nat, i: nat, n: nat)
    requires IsPow2(n)
    ensures And(Visit(h, i, n) + (i + 1), n - 1) == Visit(h, i + 1, n)
  {
    var p := ExponentOf(n);
    VisitNext(h, i, n);
    MaskIsMod(Visit(h, i, n) + (i + 1), p);
  }

  /** If probing meets an empty bucket without meeting key, key is not in the table. */
  lemma AbsentAfterProbe<K, V>(info: Info<K, V>, b: seq<Bucket<K, V>>, key: K)
    requires TableOk(info, b) && !Reserved(info, key) && ProbeFails(info, b, key)
    ensures Absent(b, key)
  {}

  lemma StoredNext<K, V>(info: Info<K, V>, was: seq<Bucket<K, V>>, i: nat)
    requires NoDup(info, was) && i < |was|
    ensures Stored(info, was[..i + 1]) ==
      if Live(info, was[i]) then Stored(info, was[..i])[was[i].key := was[i].value] else Stored(info, was[..i])
  {}

  lemma KeptNext<K, V>(info: Info<K, V>, was: seq<Bucket<K, V>>, i: nat)
    requires NoDup(info, was) && i < |was|
    ensures Kept(info, Stored(info, was[..i + 1])) ==
      if Live(info, was[i]) && !info.isPurgeable(was[i].value)
      then Kept(info, Stored(info, was[..i]))[was[i].key := was[i].value]
      else Kept(info, Stored(info, was[..i]))
  {
    StoredNext(info, was, i);
    if Live(info, was[i]) { NotYetMoved(info, was, i); }
  }

  ghost predicate NonePurgeable<K, V>(info: Info<K, V>, b: seq<Bucket<K, V>>) {
    forall j :: 0 <= j < |b| && Live(info, b[j]) ==> !info.isPurgeable(b[j].value)
  }

  /** How the entries to keep, and their number, grow with one more old bucket. */
  lemma MoveNext<K, V>(info: Info<K, V>, was: seq<Bucket<K, V>>, i: nat)
    requires NoDup(info, was) && i < |was|
    ensures LiveCount(info, was[..i + 1]) == LiveCount(info, was[..i]) + One(Live(info, was[i]))
    ensures LiveCount(info, was[..i + 1]) <= LiveCount(info, was)
    ensures Live(info, was[i]) ==> was[i].key !in Kept(info, Stored(info, was[..i]))
    ensures Kept(info, Stored(info, was[..i + 1])) ==
      if Live(info, was[i]) && !info.isPurgeable(was[i].value)
      then Kept(info, Stored(info, was[..i]))[was[i].key := was[i].value]
      else Kept(info, Stored(info, was[..i]))
  {
    assert was[..i + 1][..i] == was[..i];
    KeptNext(info, was, i);
    CountPrefix(info, was, i + 1);
    if Live(info, was[i]) { NotYetMoved(info, was, i); }
  }

  /** Moving one entry into a table without tombstones or purgeable entries. */
  lemma MoveOne<K, V>(info: Info<K, V>, b: seq<Bucket<K, V>>, dest: nat, x: Bucket<K, V>)
    requires TableOk(info, b) && NonePurgeable(info, b) && TombCount(info, b) == 0
    requires Live(info, x) && !info.isPurgeable(x.value) && Absent(b, x.key) && MayTake(info, b, x.key, dest)
    ensures var b' := b[dest := x];
      && TableOk(info, b') && NonePurgeable(info, b') && TombCount(info, b') == 0
      && LiveCount(info, b') == LiveCount(info, b) + 1
      && Stored(info, b') == Stored(info, b)[x.key := x.value]
  {
    assert x == Bucket(x.key, x.value);
    TakeKeepsTable(info, b, dest, x.key, x.value);
    StoredAfterTake(info, b, dest, x.key, x.value);
    CountsAfter(info, b, dest, x);
  }

  lemma {:induction false} CountPrefix<K, V>(info: Info<K, V>, was: seq<Bucket<K, V>>, i: nat)
    requires i <= |was|
    ensures LiveCount(info, was[..i]) <= LiveCount(info, was)
    decreases |was| - i
  {
    if i < |was| {
      assert was[..i + 1][..i] == was[..i];
      CountPrefix(info, was, i + 1);
    } else {
      assert was[..i] == was;
    }
  }

  lemma NotYetMoved<K, V>(info: Info<K, V>, was: seq<Bucket<K, V>>, i: nat)
    requires NoDup(info, was) && i < |was| && Live(info, was[i])
    ensures was[i].key !in Stored(info, was[..i])
  {}

  lemma TombstoneCounted<K, V>(info: Info<K, V>, b: seq<Bucket<K, V>>, j: nat)
    requires info.emptyKey != info.tombstoneKey && j < |b|
    ensures TombCount(info, b) >= One(b[j].key == info.tombstoneKey)
  {}

  /** Everything about writing a new key into the bucket found for it. */
  lemma TakeSlot<K, V>(info: Info<K, V>, b: seq<Bucket<K, V>>, j: nat, k: K, v: V)
    requires TableOk(info, b) && !Reserved(info, k) && Absent(b, k) && MayTake(info, b, k, j)
    ensures var b' := b[j := Bucket(k, v)];
      && TableOk(info, b')
      && LiveCount(info, b') == LiveCount(info, b) + One(!Live(info, b[j]))
      && TombCount(info, b') + One(b[j].key == info.tombstoneKey) == TombCount(info, b)
      && k in Stored(info, b') && Stored(info, b')[k] == v
      && Purged(info, Stored(info, b') - {k}, Stored(info, b))
  {
    CountsAfter(info, b, j, Bucket(k, v));
    TakeKeepsTable(info, b, j, k, v);
    StoredAfterTake(info, b, j, k, v);
    AbsentIsNotStored(info, b, k);
    if Live(info, b[j]) { StoredAt(info, b, j); }
  }

  /** A rehash drops every purgeable entry, and then the new key takes an empty bucket. */
  lemma TakeAfterGrow<K, V>(info: Info<K, V>, b: seq<Bucket<K, V>>, j: nat, k: K, v: V, first: map<K, V>)
    requires TableOk(info, b) && !Reserved(info, k) && Absent(b, k) && MayTake(info, b, k, j)
    requires Stored(info, b) == first || Stored(info, b) == Kept(info, first)
    ensures Purged(info, Stored(info, b[j := Bucket(k, v)]) - {k}, first)
    ensures Stored(info, b) == Kept(info, first) ==> Stored(info, b[j := Bucket(k, v)]) == Kept(info, first)[k := v]
  {
    TakeSlot(info, b, j, k, v);
    StoredAfterTake(info, b, j, k, v);
    if Live(info, b[j]) { StoredAt(info, b, j); }
  }

  lemma DoubledSize(n: nat)
    requires n <= MAX_BUCKETS && (n == 0 || (IsPow2(n) && n >= 4))
    ensures GrownSize(n * 2) == if n == 0 then MIN_BUCKETS else n * 2
  {
    if n > 0 {
      IsPow2Double(n);
      GrownSizeOk(n * 2);
    }
  }

  lemma SmallGrow(atLeast: nat, size: nat)
    requires atLeast <= 0x8000_0000
    requires atLeast == 0 ==> size == 0
    requires atLeast > 0 ==> size == NextPow2(atLeast - 1)
    ensures GrownSize(atLeast) == if size < MIN_BUCKETS then MIN_BUCKETS else size
  {
    if 0 < atLeast < 4 {
      NextPow2Least(atLeast - 1);
      Pow2IsPow2(2);
      assert Pow2(2) == 4;
    } else if atLeast >= 4 {
      NextPow2Least(atLeast - 1);
    }
  }

  /** Everything about writing a new value under the same key. */
  lemma RewriteSlot<K, V>(info: Info<K, V>, b: seq<Bucket<K, V>>, j: nat, v: V)
    requires TableOk(info, b) && j < |b| && Live(info, b[j])
    ensures var b' := b[j := Bucket(b[j].key, v)];
      && TableOk(info, b') && LiveCount(info, b') == LiveCount(info, b) && TombCount(info, b') == TombCount(info, b)
      && Stored(info, b') == Stored(info, b)[b[j].key := v]
  {
    var k := b[j].key;
    CountsAfter(info, b, j, Bucket(k, v));
    RewriteKeepsTable(info, b, j, v);
    StoredAfterTake(info, b, j, k, v);
    assert (Stored(info, b) - {k})[k := v] == Stored(info, b)[k := v];
  }

  /** Assigning over what operator[] found or put in. */
  lemma Rewritten<K, V>(info: Info<K, V>, mid: map<K, V>, k: K, zero: V, v: V, before: map<K, V>)
    requires k in before ==> mid == before
    requires k !in before ==> Purged(info, mid - {k}, before)
    ensures Purged(info, mid[k := v] - {k}, before - {k})
    ensures mid == Kept(info, before)[k := zero] ==> mid[k := v] == Kept(info, before)[k := v]
  {
    assert mid[k := v] - {k} == mid - {k};
  }

  lemma RewriteKeepsTable<K, V>(info: Info<K, V>, b: seq<Bucket<K, V>>, j: nat, v: V)
    requires TableOk(info, b) && j < |b| && Live(info, b[j])
    ensures TableOk(info, b[j := Bucket(b[j].key, v)])
  {}

  /** Twice the least power of two not below the count is under four times the count. */
  lemma CeilDoubled(entries: nat, k: nat)
    requires 0 < entries <= Pow2(k) && forall j: nat :: entries <= Pow2(j) ==> k <= j
    ensures entries <= Pow2(k + 1) && (Pow2(k + 1) < 4 * entries || Pow2(k + 1) <= 2)
  {}

  lemma CeilIsNextPow2(entries: nat, k: nat)
    requires 0 < entries <= Pow2(k) && forall j: nat :: entries <= Pow2(j) ==> k <= j
    ensures Pow2(k + 1) == 2 * NextPow2(entries - 1)
  {
    NextPow2Least(entries - 1);
    Pow2IsPow2(k);
    Pow2Mono(k, BitLen(entries - 1));
  }

  /** The shrunken size is big enough for what was there, and no bigger than the table was. */
  lemma ShrinkSizes(entries: nat, k: nat, buckets: nat)
    requires 0 < entries && entries * 4 < buckets <= MAX_BUCKETS && IsPow2(buckets)
    requires entries <= Pow2(k) && forall j: nat :: entries <= Pow2(j) ==> k <= j
    ensures var size := if Pow2(k + 1) < MIN_BUCKETS then MIN_BUCKETS else Pow2(k + 1);
      && IsPow2(size) && entries <= size && size <= MAX_RESERVE
      && (buckets > MIN_BUCKETS ==> MinBuckets(size) <= buckets && size < buckets)
  {
    var p := Pow2(k + 1);
    CeilDoubled(entries, k);
    Pow2IsPow2(k + 1);
    Pow2IsPow2(2);
    assert Pow2(2) == 4;
    Pow2Gap(p, buckets);
    if buckets > MIN_BUCKETS {
      Pow2Gap(4, buckets);
      OneSizeUp(if p < MIN_BUCKETS then MIN_BUCKETS else p);
    }
  }

  lemma NextPow2Within(size: nat, m: nat)
    requires IsPow2(size) && size <= m < 2 * size
    ensures NextPow2(m) == 2 * size
  {
    IsPow2Double(size);
    NextPow2AtMost(m, 2 * size);
    NextPow2Least(m);
    Pow2Gap(size, NextPow2(m));
  }

  lemma ThirdMore(size: nat)
    requires size >= 4
    ensures size <= size * 4 / 3 + 1 < 2 * size
  {}

  /** Asking for as many entries as a power of two gives exactly twice as many buckets. */
  lemma OneSizeUp(size: nat)
    requires IsPow2(size) && size >= 4
    ensures MinBuckets(size) == 2 * size
  {
    ThirdMore(size);
    NextPow2Within(size, size * 4 / 3 + 1);
  }

  /** So a shrunken size that has to be allocated is never the one computed: it is twice that. */
  lemma ShrunkDoubles(entries: nat)
    requires entries > 0
    ensures IsPow2(ShrunkFor(entries)) && ShrunkFor(entries) >= 4
    ensures MinBuckets(ShrunkFor(entries)) == 2 * ShrunkFor(entries) > ShrunkFor(entries)
  {
    NextPow2Least(entries - 1);
    IsPow2Double(NextPow2(entries - 1));
    Pow2IsPow2(2);
    assert Pow2(2) == 4;
    OneSizeUp(ShrunkFor(entries));
  }

  /** clear leaves fewer than eight buckets for each entry there was, or no more than eight in all. */
  lemma ClearedIsTight(entries: nat, tombs: nat, n: nat)
    requires entries > 0
    ensures ClearedBuckets(entries, tombs, n) < 8 * entries || ClearedBuckets(entries, tombs, n) <= 8
  {
    var p := NextPow2(entries - 1);
    NextPow2Least(entries - 1);
    if p > 1 {
      var k := ExponentOf(p);
      Pow2IsPow2(k - 1);
      assert p == 2 * Pow2(k - 1);
    }
  }

  lemma CompactShrinks(entries: nat, buckets: nat)
    requires 0 < entries && buckets / 16 > entries && IsPow2(buckets) && buckets > MIN_COMPACT
    ensures GrownSize(entries * 2) <= buckets && entries * 4 < GrownSize(entries * 2) * 3
  {
    if entries * 2 >= 4 {
      NextPow2Least(entries * 2 - 1);
    }
  }
}

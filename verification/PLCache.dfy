/**
 * The cache of property lists: entries linked both ways, most recently used first. Freed and foreign
 * entries are the caller's; inet_aton is a parameter.
 */
module PLCaches {
  import opened Netinfo
  import opened Options
  import opened Words

  const CACHE_MIN := 10
  const CACHE_MAX := 256
  const IP_ADDRESS := "ip_address"

  /** An entry owns a copy of a property list. */
  class Entry {
    const pl: seq<Property>
    var next: Entry?
    var prev: Entry?

    constructor (pl: seq<Property>)
      ensures this.pl == pl && next == null && prev == null
    {
      this.pl := pl;
      next, prev := null, null;
    }
  }

  function MovedToFront<T>(s: seq<T>, k: nat): seq<T>
    requires k < |s|
  {
    [s[k]] + Deleted(s, k)
  }

  /** The element after the i-th, or null. */
  function After(s: seq<Entry>, i: nat): Entry? { if i + 1 < |s| then s[i + 1] else null }

  /** The element before the i-th, or null. */
  function Before(s: seq<Entry>, i: nat): Entry? { if 0 < i <= |s| then s[i - 1] else null }

  /** The i-th entry points to its neighbours. */
  ghost predicate LinkedAt(s: seq<Entry>, i: nat)
    requires i < |s|
    reads s[i]
  {
    s[i].next == After(s, i) && s[i].prev == Before(s, i)
  }

  ghost predicate Linked(s: seq<Entry>)
    reads s
  {
    forall i :: 0 <= i < |s| ==> LinkedAt(s, i)
  }

  ghost predicate NoRepeats<T>(s: seq<T>) { forall i, j :: 0 <= i < j < |s| ==> s[i] != s[j] }

  /** The j-th entry points past the k-th where that was its neighbour. */
  ghost predicate AroundAt(s: seq<Entry>, k: nat, j: nat)
    requires k < |s| && j < |s|
    reads s[j]
  {
    && s[j].next == (if j + 1 == k then After(s, k) else After(s, j))
    && s[j].prev == (if j == k + 1 then Before(s, k) else Before(s, j))
  }

  lemma DeletedAt<T>(s: seq<T>, k: nat, i: nat)
    requires k < |s| && i < |s| - 1
    ensures Deleted(s, k)[i] == s[if i < k then i else i + 1]
  {}

  /** A list linked around its k-th entry is the list without it. */
  lemma LinkedAround(s: seq<Entry>, k: nat)
    requires k < |s| && forall j :: 0 <= j < |s| && j != k ==> AroundAt(s, k, j)
    ensures Linked(Deleted(s, k))
  {
    var r := Deleted(s, k);
    forall i | 0 <= i < |r| ensures LinkedAt(r, i) {
      var j := if i < k then i else i + 1;
      DeletedAt(s, k, i);
      if i > 0 { DeletedAt(s, k, i - 1); }
      if i + 1 < |r| { DeletedAt(s, k, i + 1); }
      assert AroundAt(s, k, j);
    }
  }

  lemma NoRepeatsDeleted<T>(s: seq<T>, k: nat)
    requires k < |s| && NoRepeats(s)
    ensures NoRepeats(Deleted(s, k)) && s[k] !in Deleted(s, k)
  {}

  /** An address of the first "ip_address" property, as inet_aton reads it, is addr. */
  ghost predicate HasAddress(aton: string -> Option<nat>, addr: nat, pl: seq<Property>) {
    var i := Match(pl, IP_ADDRESS, None);
    i.Some? && i.value < |pl| && exists n :: 0 <= n < |pl[i.value].values| && aton(pl[i.value].values[n]) == Some(addr)
  }

  method AddressIn(aton: string -> Option<nat>, addr: nat, pl: seq<Property>) returns (found: bool)
    ensures found <==> HasAddress(aton, addr, pl)
  {
    var ipIndex := ProplistMatch(pl, IP_ADDRESS, None);
    MatchIsTheMatch(pl, IP_ADDRESS, None, ipIndex);
    if ipIndex.Some? {
      var values, n := pl[ipIndex.value].values, 0;
      while n < |values|
        invariant n <= |values| && forall j :: 0 <= j < n ==> aton(values[j]) != Some(addr)
      {
        if aton(values[n]) == Some(addr) { return true; }
        n := n + 1;
      }
    }
    return false;
  }

  /** The values of the first property of that name. */
  function ValuesOf(pl: seq<Property>, name: string): seq<string> {
    var i := Match(pl, name, None);
    if i.Some? && i.value < |pl| then pl[i.value].values else []
  }

  /** What an entry is looked up by: the property, the values wanted, inet_aton, and the caller's say over addresses. */
  datatype Binding = Binding(id: string, wanted: string -> bool, aton: string -> Option<nat>, accept: nat -> bool)

  /** The address bound to an entry's n-th identifier, if that is wanted: addresses are dealt out in turn. */
  function Bound(b: Binding, pl: seq<Property>, n: nat): Option<nat> {
    var ids, ips := ValuesOf(pl, b.id), ValuesOf(pl, IP_ADDRESS);
    if n < |ids| && |ips| > 0 && b.wanted(ids[n]) then b.aton(ips[n % |ips|]) else None
  }

  /** With enough addresses each wanted identifier has its own; after the last address they are dealt out again. */
  lemma DealtInTurn(b: Binding, pl: seq<Property>, n: nat)
    requires n < |ValuesOf(pl, b.id)| && b.wanted(ValuesOf(pl, b.id)[n])
    ensures var ips := ValuesOf(pl, IP_ADDRESS);
      && (n < |ips| ==> Bound(b, pl, n) == b.aton(ips[n]))
      && (0 < |ips| <= n && b.wanted(ValuesOf(pl, b.id)[n - |ips|]) ==> Bound(b, pl, n) == Bound(b, pl, n - |ips|))
      && (ips == [] ==> Bound(b, pl, n).None?)
  {
    var ips := ValuesOf(pl, IP_ADDRESS);
    if 0 < |ips| <= n { SameRemainder(n, |ips|); }
  }

  lemma SameRemainder(n: nat, d: nat)
    requires 0 < d <= n
    ensures n % d == (n - d) % d
  {
    var q, r := (n - d) / d, (n - d) % d;
    assert n == d * (q + 1) + r;
    DivUnique(n, d, q + 1, r);
  }

  ghost predicate Accepted(b: Binding, pl: seq<Property>, n: nat) {
    Bound(b, pl, n).Some? && b.accept(Bound(b, pl, n).value)
  }

  /** Some wanted identifier of the entry has an address. */
  ghost predicate HasBound(b: Binding, pl: seq<Property>) { exists n: nat :: Bound(b, pl, n).Some? }

  /** The scan of one entry: its identifiers in order, each with the address it shares out. */
  method BindingIn(b: Binding, pl: seq<Property>) returns (seen: bool, found: bool, ip: nat, ghost at: nat)
    ensures found ==>
      && seen && Accepted(b, pl, at) && Bound(b, pl, at) == Some(ip)
      && forall n: nat :: n < at ==> !Accepted(b, pl, n)
    ensures !found ==> (seen <==> HasBound(b, pl)) && forall n: nat :: !Accepted(b, pl, n)
  {
    seen, found, ip, at := false, false, 0, 0;
    var idIndex := ProplistMatch(pl, b.id, None);
    var ipIndex := ProplistMatch(pl, IP_ADDRESS, None);
    MatchIsTheMatch(pl, b.id, None, idIndex);
    MatchIsTheMatch(pl, IP_ADDRESS, None, ipIndex);
    if idIndex.None? || ipIndex.None? { return; }
    var ids, ips := pl[idIndex.value].values, pl[ipIndex.value].values;
    if |ids| == 0 || |ips| == 0 { return; }
    var n := 0;
    while n < |ids|
      invariant n <= |ids| && forall j: nat :: j < n ==> !Accepted(b, pl, j)
      invariant seen <==> exists j: nat :: j < n && Bound(b, pl, j).Some?
    {
      if b.wanted(ids[n]) && b.aton(ips[n % |ips|]).Some? {
        ip := b.aton(ips[n % |ips|]).value;
        assert Bound(b, pl, n) == Some(ip);
        seen := true;
        if b.accept(ip) {
          at, found := n, true;
          return;
        }
      }
      n := n + 1;
    }
  }

  /** What a caller that wants no address accepts. */
  ghost predicate WillDo(b: Binding, pl: seq<Property>) {
    var ids := ValuesOf(pl, b.id);
    (ids != [] && b.wanted(ids[0])) || exists n: nat :: Accepted(b, pl, n)
  }

  /** The scan of one entry for such a caller: the first identifier by itself, then each with its address. */
  method UnboundIn(b: Binding, pl: seq<Property>) returns (seen: bool, found: bool)
    ensures found <==> WillDo(b, pl)
    ensures found ==> seen
    ensures !found ==> (seen <==> HasBound(b, pl))
  {
    var idIndex := ProplistMatch(pl, b.id, None);
    MatchIsTheMatch(pl, b.id, None, idIndex);
    if idIndex.None? || pl[idIndex.value].values == [] { return false, false; }
    if b.wanted(pl[idIndex.value].values[0]) { return true, true; }
    var ip;
    ghost var at;
    seen, found, ip, at := BindingIn(b, pl);
  }

  class PLCache {
    var head: Entry?
    var tail: Entry?
    var maxEntries: int
    var count: int
    ghost var entries: seq<Entry>

    /** Both chains of pointers run through entries, which has no repeats. */
    ghost predicate Valid()
      reads this, entries
    {
      && count == |entries| && NoRepeats(entries) && Linked(entries)
      && head == (if entries == [] then null else entries[0])
      && tail == (if entries == [] then null else entries[|entries| - 1])
    }

    constructor ()
      ensures Valid() && entries == [] && maxEntries == CACHE_MAX
    {
      head, tail, count, maxEntries, entries := null, null, 0, CACHE_MAX, [];
    }

    /** Put entry first. */
    method Add(entry: Entry?)
      requires Valid() && entry !in entries
      modifies this, entries, entry
      ensures Valid() && maxEntries == old(maxEntries)
      ensures entries == if entry == null then old(entries) else [entry] + old(entries)
    {
      if entry == null { return; }
      entry.next := head;
      entry.prev := null;
      if head == null {
        head, tail := entry, entry;
      } else {
        head.prev := entry;
        head := entry;
      }
      count := count + 1;
      ghost var s := entries;
      entries := [entry] + entries;
      forall i | 0 <= i < |entries| ensures LinkedAt(entries, i) {
        assert i > 0 ==> entries[i] == s[i - 1] && s[i - 1] != entry && (i > 1 ==> s[i - 1] != s[0]);
        assert i > 0 ==> old(LinkedAt(entries, i - 1));
      }
    }

    /** Put entry last. */
    method Append(entry: Entry?)
      requires Valid() && entry !in entries
      modifies this, entries, entry
      ensures Valid() && maxEntries == old(maxEntries)
      ensures entries == if entry == null then old(entries) else old(entries) + [entry]
    {
      if entry == null { return; }
      entry.next := null;
      entry.prev := tail;
      if head == null {
        head, tail := entry, entry;
      } else {
        tail.next := entry;
        tail := entry;
      }
      count := count + 1;
      ghost var s := entries;
      entries := entries + [entry];
      forall i | 0 <= i < |entries| ensures LinkedAt(entries, i) {
        assert i < |s| ==> entries[i] == s[i] && s[i] != entry && (i + 1 < |s| ==> s[i] != s[|s| - 1]);
        assert i < |s| ==> old(LinkedAt(entries, i));
      }
    }

    /** Unlink entry, the k-th, from wherever it is. */
    method Remove(entry: Entry?, ghost k: nat)
      requires Valid() && (entry != null ==> k < |entries| && entries[k] == entry)
      modifies this, entries
      ensures Valid() && maxEntries == old(maxEntries)
      ensures entries == if entry == null then old(entries) else Deleted(old(entries), k)
      ensures entry != null ==> entry.next == null && entry.prev == null && entry !in entries
    {
      if entry == null { return; }
      Bypass(entry, k);
      ghost var s := entries;
      LinkedAround(s, k);
      NoRepeatsDeleted(s, k);
      assert AroundAt(s, k, 0) || k == 0;
      if entry == head { head := head.next; }
      if entry == tail { tail := tail.prev; }
      entry.next, entry.prev := null, null;
      count := count - 1;
      entries := Deleted(entries, k);
    }

    /** Make entry's neighbours, where it has them, point past it. */
    method Bypass(entry: Entry, ghost k: nat)
      requires Valid() && k < |entries| && entries[k] == entry
      modifies entries
      ensures LinkedAt(entries, k) && forall j :: 0 <= j < |entries| && j != k ==> AroundAt(entries, k, j)
    {
      ghost var s := entries;
      assert LinkedAt(s, k);
      if entry.prev != null { entry.prev.next := entry.next; }
      if entry.next != null { entry.next.prev := entry.prev; }
      forall j | 0 <= j < |s| && j != k ensures AroundAt(s, k, j) {
        assert old(LinkedAt(entries, j)) && s[j] != entry;
        assert k > 0 && j + 1 != k ==> s[j] != s[k - 1];
        assert k + 1 < |s| && j != k + 1 ==> s[j] != s[k + 1];
      }
    }

    method MakeHead(entry: Entry, ghost k: nat)
      requires Valid() && k < |entries| && entries[k] == entry
      modifies this, entries
      ensures Valid() && maxEntries == old(maxEntries)
      ensures entries == MovedToFront(old(entries), k)
    {
      ghost var s := entries;
      if entry == head {
        assert s[0] == s[k];
        MovedKeepsAll(s, 0);
        return;
      }
      Remove(entry, k);
      Add(entry);
    }

    /** Keep the first max(m, 10) entries, and free the others from the tail. */
    method SetMax(m: int)
      requires Valid()
      modifies this, entries
      ensures Valid() && maxEntries == (if m < CACHE_MIN then CACHE_MIN else m)
      ensures entries == if |old(entries)| > maxEntries then old(entries)[..maxEntries] else old(entries)
    {
      maxEntries := if m < CACHE_MIN then CACHE_MIN else m;
      if count > maxEntries {
        var num := count - maxEntries;
        var last: Entry? := null;
        var scan := tail;
        var i := 0;
        while i < num
          invariant 0 <= i <= num
          invariant entries == old(entries) && count == old(count) && head == old(head)
          invariant maxEntries == (if m < CACHE_MIN then CACHE_MIN else m) && num == count - maxEntries
          invariant scan == entries[count - i - 1] && (i > 0 ==> last == scan)
          invariant forall k :: 0 <= k < count - i ==> LinkedAt(entries, k)
        {
          assert LinkedAt(entries, count - i - 1);
          last := scan.prev;
          scan.next, scan.prev := null, null;
          scan := last;
          i := i + 1;
        }
        assert LinkedAt(entries, maxEntries - 1);
        tail := last;
        if tail != null { tail.next := null; } else { assert false; }  // at least ten entries stay
        count := maxEntries;
        ghost var s := entries;
        entries := s[..count];
        forall k | 0 <= k < count ensures LinkedAt(entries, k) { assert LinkedAt(s, k) || k == count - 1; }
      }
    }

    /** The first entry with the property, or with the property and the value among its values. */
    method LookupProp(prop: string, value: Option<string>, makeHead: bool) returns (r: Entry?, ghost k: nat)
      requires Valid()
      modifies this, entries
      ensures Valid() && maxEntries == old(maxEntries) && k <= |old(entries)|
      ensures forall i :: 0 <= i < k ==> Match(old(entries)[i].pl, prop, value).None?
      ensures r == null <==> k == |old(entries)|
      ensures r == null ==> entries == old(entries)
      ensures r != null ==> r == old(entries)[k] && Match(r.pl, prop, value).Some?
      ensures r != null ==> entries == if makeHead then MovedToFront(old(entries), k) else old(entries)
    {
      var scan := head;
      k := 0;
      while scan != null
        invariant Valid() && entries == old(entries) && maxEntries == old(maxEntries)
        invariant k <= |entries| && scan == (if k < |entries| then entries[k] else null)
        invariant forall i :: 0 <= i < k ==> Match(entries[i].pl, prop, value).None?
        decreases |entries| - k
      {
        var index := ProplistMatch(scan.pl, prop, value);
        if index.Some? {
          if makeHead { MakeHead(scan, k); }
          return scan, k;
        }
        assert LinkedAt(entries, k);
        scan := scan.next;
        k := k + 1;
      }
      return null, k;
    }

    /** The first entry with the address, moved to the front. */
    method LookupIp(aton: string -> Option<nat>, addr: nat) returns (r: Entry?, ghost k: nat)
      requires Valid()
      modifies this, entries
      ensures Valid() && maxEntries == old(maxEntries) && k <= |old(entries)|
      ensures forall i :: 0 <= i < k ==> !HasAddress(aton, addr, old(entries)[i].pl)
      ensures r == null <==> k == |old(entries)|
      ensures r == null ==> entries == old(entries)
      ensures r != null ==>
        r == old(entries)[k] && HasAddress(aton, addr, r.pl) && entries == MovedToFront(old(entries), k)
    {
      var scan := head;
      k := 0;
      while scan != null
        invariant Valid() && entries == old(entries) && maxEntries == old(maxEntries)
        invariant k <= |entries| && scan == (if k < |entries| then entries[k] else null)
        invariant forall i :: 0 <= i < k ==> !HasAddress(aton, addr, entries[i].pl)
        decreases |entries| - k
      {
        var found := AddressIn(aton, addr, scan.pl);
        if found {
          MakeHead(scan, k);
          return scan, k;
        }
        assert LinkedAt(entries, k);
        scan := scan.next;
        k := k + 1;
      }
      return null, k;
    }

    /**
     * Lookup by hardware address or by identifier: the first entry with an accepted address, moved to
     * the front, with the first such address; and whether any address was seen on the way.
     */
    method LookupBinding(b: Binding) returns (r: Entry?, ip: nat, hasBinding: bool, ghost k: nat, ghost at: nat)
      requires Valid()
      modifies this, entries
      ensures Valid() && maxEntries == old(maxEntries) && k <= |old(entries)|
      ensures forall i, n: nat :: 0 <= i < k ==> !Accepted(b, old(entries)[i].pl, n)
      ensures r == null <==> k == |old(entries)|
      ensures r == null ==>
        && entries == old(entries)
        && (hasBinding <==> exists i :: 0 <= i < |entries| && HasBound(b, entries[i].pl))
      ensures r != null ==> hasBinding && r == old(entries)[k] && entries == MovedToFront(old(entries), k)
      ensures r != null ==>
        && Accepted(b, r.pl, at) && Bound(b, r.pl, at) == Some(ip)
        && forall n: nat :: n < at ==> !Accepted(b, r.pl, n)
    {
      var scan := head;
      k, at, ip, hasBinding := 0, 0, 0, false;
      while scan != null
        invariant Valid() && entries == old(entries) && maxEntries == old(maxEntries)
        invariant k <= |entries| && scan == (if k < |entries| then entries[k] else null)
        invariant forall i, n: nat :: 0 <= i < k ==> !Accepted(b, entries[i].pl, n)
        invariant hasBinding <==> exists i :: 0 <= i < k && HasBound(b, entries[i].pl)
        decreases |entries| - k
      {
        var seen, found;
        seen, found, ip, at := BindingIn(b, scan.pl);
        hasBinding := hasBinding || seen;
        if found {
          MakeHead(scan, k);
          return scan, ip, hasBinding, k, at;
        }
        assert LinkedAt(entries, k);
        scan := scan.next;
        k := k + 1;
      }
      return null, ip, hasBinding, k, at;
    }

    /**
     * Lookup by identifier for a caller that wants no address (a null client_ip): an entry whose first
     * identifier is wanted will do, and so will one with an accepted address. With no address to show it,
     * a filter accepts nothing; without a filter every address is accepted.
     */
    method LookupUnbound(b: Binding) returns (r: Entry?, hasBinding: bool, ghost k: nat)
      requires Valid()
      modifies this, entries
      ensures Valid() && maxEntries == old(maxEntries) && k <= |old(entries)|
      ensures forall i :: 0 <= i < k ==> !WillDo(b, old(entries)[i].pl)
      ensures r == null <==> k == |old(entries)|
      ensures r == null ==>
        && entries == old(entries)
        && (hasBinding <==> exists i :: 0 <= i < |entries| && HasBound(b, entries[i].pl))
      ensures r != null ==> hasBinding && r == old(entries)[k] && entries == MovedToFront(old(entries), k)
      ensures r != null ==> WillDo(b, r.pl)
    {
      var scan := head;
      k, hasBinding := 0, false;
      while scan != null
        invariant Valid() && entries == old(entries) && maxEntries == old(maxEntries)
        invariant k <= |entries| && scan == (if k < |entries| then entries[k] else null)
        invariant forall i :: 0 <= i < k ==> !WillDo(b, entries[i].pl)
        invariant hasBinding <==> exists i :: 0 <= i < k && HasBound(b, entries[i].pl)
        decreases |entries| - k
      {
        var seen, found := UnboundIn(b, scan.pl);
        hasBinding := hasBinding || seen;
        if found {
          MakeHead(scan, k);
          return scan, hasBinding, k;
        }
        assert LinkedAt(entries, k);
        scan := scan.next;
        k := k + 1;
      }
      return null, hasBinding, k;
    }

    /** Free every entry; even the limit is cleared. */
    method Free()
      requires Valid()
      modifies this, entries
      ensures Valid() && entries == [] && maxEntries == 0
    {
      var scan := head;
      ghost var k := 0;
      while scan != null
        invariant k <= |entries| && scan == (if k < |entries| then entries[k] else null)
        invariant entries == old(entries)
        invariant forall i :: k <= i < |entries| ==> LinkedAt(entries, i)
        decreases |entries| - k
      {
        assert LinkedAt(entries, k);
        var next := scan.next;
        scan.next, scan.prev := null, null;
        scan := next;
        k := k + 1;
      }
      head, tail, count, maxEntries, entries := null, null, 0, 0, [];
    }
  }

  /** Moving to the front loses and repeats nothing and keeps the others in order; from the front, no change. */
  lemma MovedKeepsAll<T>(s: seq<T>, k: nat)
    requires k < |s|
    ensures multiset(MovedToFront(s, k)) == multiset(s)
    ensures MovedToFront(s, k)[0] == s[k] && MovedToFront(s, k)[1..] == Deleted(s, k)
    ensures MovedToFront(s, 0) == s
  {
    assert s == s[..k] + [s[k]] + s[k + 1..];
  }
}

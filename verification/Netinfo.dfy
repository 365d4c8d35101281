/**
 * NetInfo property lists: arrays that grow and shrink by one, and the lookups over them. A name list
 * is an NiList<string>, a property list an NiList<Property>.
 */
module Netinfo {
  import opened Options

  /** A name and its list of values. */
  datatype Property = Property(name: string, values: seq<string>)

  /** A position in a list; None is NI_INDEX_NULL, which is above every position. */
  type Index = Option<nat>

  /** Inserting at a position past the end appends. */
  function Inserted<T>(s: seq<T>, x: T, at: Index): seq<T> {
    var k := if at.Some? && at.value < |s| then at.value else |s|;
    s[..k] + [x] + s[k..]
  }

  function Deleted<T>(s: seq<T>, i: nat): seq<T>
    requires i < |s|
  {
    s[..i] + s[i + 1..]
  }

  lemma GapFilled<T>(g: seq<T>, s: seq<T>, x: T, i: nat)
    requires |g| == |s| + 1 && i <= |s| && g[i] == x
    requires forall k :: 0 <= k < i ==> g[k] == s[k]
    requires forall k :: i < k <= |s| ==> g[k] == s[k - 1]
    ensures g == s[..i] + [x] + s[i..]
  {}

  class NiList<T(0)> {
    var val: array<T>
    var len: nat

    ghost predicate Valid()
      reads this
    {
      val.Length == len
    }

    ghost function Contents(): seq<T>
      reads this, val
    {
      val[..]
    }

    constructor ()
      ensures Valid() && Contents() == [] && fresh(val)
    {
      val := new T[0];
      len := 0;
    }

    /** Grow by one, move the tail up from the end, and put x in the gap. */
    method Insert(x: T, at: Index)
      requires Valid()
      modifies this
      ensures Valid() && fresh(val) && Contents() == Inserted(old(Contents()), x, at)
    {
      var grown := new T[len + 1];
      forall k | 0 <= k < len { grown[k] := val[k]; }
      ghost var s := Contents();
      var i := len;
      while i > 0 && at.Some? && i > at.value
        modifies grown
        invariant i <= len && (at.Some? && at.value < len ==> at.value <= i)
        invariant at.None? || at.value >= len ==> i == len
        invariant forall k :: 0 <= k < i ==> grown[k] == s[k]
        invariant forall k :: i < k <= len ==> grown[k] == s[k - 1]
      {
        grown[i] := grown[i - 1];
        i := i - 1;
      }
      grown[i] := x;
      GapFilled(grown[..], s, x, i);
      val := grown;
      len := len + 1;
    }

    /** Move the tail down over the deleted place, and shrink by one. */
    method Delete(which: nat)
      requires Valid() && which < len
      modifies this, val
      ensures Valid() && fresh(val) && Contents() == Deleted(old(Contents()), which)
    {
      ghost var s := Contents();
      var i := which + 1;
      while i < len
        invariant which < i <= len && val == old(val) && len == old(len)
        invariant forall k :: 0 <= k < which ==> val[k] == s[k]
        invariant forall k :: which <= k < i - 1 ==> val[k] == s[k + 1]
        invariant forall k :: i <= k < len ==> val[k] == s[k]
      {
        val[i - 1] := val[i];
        i := i + 1;
      }
      var shrunk := new T[len - 1];
      forall k | 0 <= k < len - 1 { shrunk[k] := val[k]; }
      assert shrunk[..] == s[..which] + s[which + 1..];
      val := shrunk;
      len := len - 1;
    }

    /** A copy in an array of its own. */
    method Dup() returns (d: NiList<T>)
      requires Valid()
      ensures fresh(d) && d.Valid() && fresh(d.val) && d.Contents() == Contents()
    {
      d := new NiList<T>();
      d.val := new T[len];
      d.len := len;
      var i := 0;
      while i < len
        modifies d.val
        invariant i <= len
        invariant forall k :: 0 <= k < i ==> d.val[k] == val[k]
      {
        d.val[i] := val[i];
        i := i + 1;
      }
    }

    method Free()
      modifies this
      ensures Valid() && fresh(val) && Contents() == []
    {
      val := new T[0];
      len := 0;
    }
  }

  /** What was inserted can be deleted from where it went, leaving the list as it was. */
  lemma InsertDelete<T>(s: seq<T>, x: T, at: Index)
    ensures var k := if at.Some? && at.value < |s| then at.value else |s|;
      && Inserted(s, x, at)[k] == x && Deleted(Inserted(s, x, at), k) == s
  {}

  /** And what was deleted can be put back. */
  lemma DeleteInsert<T>(s: seq<T>, i: nat)
    requires i < |s|
    ensures Inserted(Deleted(s, i), s[i], Some(i)) == s
  {}

  /**
   * r is what ni_proplist_match finds: only the first property of that name counts, and with a value
   * asked for it must be among that property's.
   */
  ghost predicate IsMatch(pl: seq<Property>, name: string, value: Option<string>, r: Index) {
    if r.Some? then
      && r.value < |pl| && pl[r.value].name == name
      && (forall k :: 0 <= k < r.value ==> pl[k].name != name)
      && (value.Some? ==> value.value in pl[r.value].values)
    else
      forall k :: 0 <= k < |pl| && pl[k].name == name && (value.Some? ==> value.value in pl[k].values) ==>
        exists j :: 0 <= j < k && pl[j].name == name
  }

  function MatchFrom(pl: seq<Property>, name: string, value: Option<string>, i: nat): Index
    requires i <= |pl|
    decreases |pl| - i
  {
    if i == |pl| then None
    else if pl[i].name == name then
      if value.None? || value.value in pl[i].values then Some(i) else None
    else MatchFrom(pl, name, value, i + 1)
  }

  function Match(pl: seq<Property>, name: string, value: Option<string>): Index { MatchFrom(pl, name, value, 0) }

  lemma {:induction false} MatchFromIs(pl: seq<Property>, name: string, value: Option<string>, i: nat)
    requires i <= |pl| && forall k :: 0 <= k < i ==> pl[k].name != name
    ensures IsMatch(pl, name, value, MatchFrom(pl, name, value, i))
    decreases |pl| - i
  {
    if i < |pl| && pl[i].name != name {
      MatchFromIs(pl, name, value, i + 1);
    } else if i < |pl| && value.Some? && value.value !in pl[i].values {
      forall k | 0 <= k < |pl| && pl[k].name == name && value.value in pl[k].values
        ensures exists j :: 0 <= j < k && pl[j].name == name
      {
        assert pl[i].name == name;
      }
    }
  }

  lemma MatchUnique(pl: seq<Property>, name: string, value: Option<string>, r: Index, m: Index)
    requires IsMatch(pl, name, value, r) && IsMatch(pl, name, value, m)
    ensures r == m
  {}

  /** Match finds the match, and there is only one. */
  lemma MatchIsTheMatch(pl: seq<Property>, name: string, value: Option<string>, r: Index)
    ensures IsMatch(pl, name, value, r) <==> r == Match(pl, name, value)
  {
    MatchFromIs(pl, name, value, 0);
    if IsMatch(pl, name, value, r) { MatchUnique(pl, name, value, r, Match(pl, name, value)); }
  }

  method ProplistMatch(pl: seq<Property>, name: string, value: Option<string>) returns (r: Index)
    ensures r == Match(pl, name, value)
  {
    var i := 0;
    while i < |pl|
      invariant i <= |pl| && Match(pl, name, value) == MatchFrom(pl, name, value, i)
    {
      if pl[i].name == name {
        if value.None? { return Some(i); }
        var nl, j := pl[i].values, 0;
        while j < |nl|
          invariant j <= |nl| && value.value !in nl[..j]
        {
          if nl[j] == value.value { return Some(i); }
          j := j + 1;
        }
        assert nl[..j] == nl;
        break;
      }
      i := i + 1;
    }
    return None;
  }

  function OneValue(name: string, value: Option<string>): Property {
    Property(name, if value.Some? then [value.value] else [])
  }

  method InsertProp(pl: NiList<Property>, name: string, value: Option<string>, at: Index)
    requires pl.Valid()
    modifies pl
    ensures pl.Valid() && fresh(pl.val) && pl.Contents() == Inserted(old(pl.Contents()), OneValue(name, value), at)
  {
    var values := new NiList<string>();
    if value.Some? { values.Insert(value.value, Some(0)); }
    assert values.Contents() == OneValue(name, value).values;
    pl.Insert(Property(name, values.val[..]), at);
  }

  /** The list with name set to value: in place of its first property, or at the end; untouched if it has the value. */
  function WithProp(s: seq<Property>, name: string, value: Option<string>): seq<Property> {
    var i := Match(s, name, None);
    if i.None? then s + [OneValue(name, value)]
    else if i.value >= |s| || (value.Some? && Match(s, name, value) == i) then s
    else s[i.value := OneValue(name, value)]
  }

  method SetProp(pl: NiList<Property>, name: string, value: Option<string>) returns (modified: bool)
    requires pl.Valid()
    modifies pl, pl.val
    ensures pl.Valid() && (pl.val == old(pl.val) || fresh(pl.val))
    ensures pl.Contents() == WithProp(old(pl.Contents()), name, value)
    ensures !modified <==> value.Some? && Match(old(pl.Contents()), name, value).Some?
  {
    ghost var s := pl.Contents();
    var i := ProplistMatch(pl.val[..], name, None);
    MatchIsTheMatch(s, name, None, i);
    MatchIsTheMatch(s, name, value, Match(s, name, value));
    if i.Some? {
      if value.Some? {
        var again := ProplistMatch(pl.val[..], name, value);
        if i == again { return false; }
      }
      pl.Delete(i.value);
    }
    InsertProp(pl, name, value, i);
    return true;
  }

  method DeleteProp(pl: NiList<Property>, name: string) returns (modified: bool)
    requires pl.Valid()
    modifies pl, pl.val
    ensures pl.Valid() && (pl.val == old(pl.val) || fresh(pl.val))
    ensures var s := old(pl.Contents()); var i := Match(s, name, None);
      && modified == i.Some?
      && (i.Some? ==> i.value < |s| && pl.Contents() == Deleted(s, i.value))
      && (i.None? ==> pl.Contents() == s)
  {
    var i := ProplistMatch(pl.val[..], name, None);
    MatchIsTheMatch(pl.Contents(), name, None, i);
    if i.Some? { pl.Delete(i.value); }
    return i.Some?;
  }

  lemma {:induction false} Absent(s: seq<Property>, name: string, i: nat)
    requires i <= |s|
    ensures MatchFrom(s, name, None, i).None? ==> forall k :: i <= k < |s| ==> s[k].name != name
    decreases |s| - i
  {
    if i < |s| { Absent(s, name, i + 1); }
  }

  /** Where name is after it was set to value. */
  lemma SetAt(s: seq<Property>, name: string, value: string) returns (k: nat)
    ensures var t := WithProp(s, name, Some(value));
      && |s| <= |t| <= |s| + 1 && k < |t| && t[k].name == name && value in t[k].values && (|t| > |s| ==> k == |s|)
      && (forall j :: 0 <= j < k ==> t[j].name != name)
      && (forall j :: 0 <= j < |s| && j != k ==> t[j] == s[j]) && (k < |s| ==> s[k].name == name)
  {
    var i := Match(s, name, None);
    MatchIsTheMatch(s, name, None, i);
    MatchIsTheMatch(s, name, Some(value), Match(s, name, Some(value)));
    Absent(s, name, 0);
    k := if i.Some? then i.value else |s|;
  }

  /** A value that was set is found, setting it again changes nothing, and other names are found where they were. */
  lemma SetIsFound(s: seq<Property>, name: string, value: string, other: string, asked: Option<string>)
    ensures var t := WithProp(s, name, Some(value));
      && Match(t, name, Some(value)).Some? && Match(t, name, Some(value)) == Match(t, name, None)
      && WithProp(t, name, Some(value)) == t
      && (other != name ==> Match(t, other, asked) == Match(s, other, asked))
  {
    var t := WithProp(s, name, Some(value));
    var k := SetAt(s, name, value);
    MatchIsTheMatch(t, name, None, Some(k));
    MatchIsTheMatch(t, name, Some(value), Some(k));
    if other != name { OthersKept(s, t, name, other, asked); }
  }

  predicate IsFirst(s: seq<Property>, name: string, k: nat)
    requires k < |s|
  {
    s[k].name == name && forall j :: 0 <= j < k ==> s[j].name != name
  }

  /** The property p of that name after it was set. */
  function SetFrom(p: Property, name: string, value: Option<string>): Property {
    if value.Some? && value.value in p.values then p else OneValue(name, value)
  }

  /**
   * With or without a value, what is set is the first property of the name: it has just that value, unless
   * it had it among others before; and nothing else in the list changes.
   */
  lemma SetIsExact(s: seq<Property>, name: string, value: Option<string>)
    ensures var t := WithProp(s, name, value);
      if forall k :: 0 <= k < |s| ==> s[k].name != name then t == s + [OneValue(name, value)]
      else exists k :: 0 <= k < |s| && IsFirst(s, name, k) && t == s[k := SetFrom(s[k], name, value)]
  {
    var i := Match(s, name, None);
    MatchIsTheMatch(s, name, None, i);
    MatchIsTheMatch(s, name, value, Match(s, name, value));
    Absent(s, name, 0);
    if i.Some? {
      var k := i.value;
      if value.Some? && value.value in s[k].values { MatchIsTheMatch(s, name, value, i); }
      assert 0 <= k < |s| && IsFirst(s, name, k);
    }
  }

  lemma OthersKept(s: seq<Property>, t: seq<Property>, name: string, other: string, asked: Option<string>)
    requires other != name && |s| <= |t| <= |s| + 1
    requires forall k :: 0 <= k < |s| ==> t[k] == s[k] || (t[k].name == name && s[k].name == name)
    requires |t| > |s| ==> t[|s|].name == name
    ensures Match(t, other, asked) == Match(s, other, asked)
  {
    var r := Match(s, other, asked);
    MatchIsTheMatch(s, other, asked, r);
    if r.None? {
      forall k | 0 <= k < |t| && t[k].name == other && (asked.Some? ==> asked.value in t[k].values)
        ensures exists j :: 0 <= j < k && t[j].name == other
      {
        var j :| 0 <= j < k && s[j].name == other;
        assert t[j] == s[j];
      }
    }
    MatchIsTheMatch(t, other, asked, r);
  }
}

/** Reading a cache from a file and writing it: the file is the text f, and fgetc reads f[pos]. */
module NICacheFile {
  import opened Netinfo
  import opened NICacheText
  import opened Options
  import opened PLCaches

  /** The property lists of the entries. */
  function Lists(s: seq<Entry>): (r: seq<Proplist>)
    ensures |r| == |s|
  {
    seq(|s|, i requires 0 <= i < |s| => s[i].pl)
  }

  lemma NextLineAt(f: string, pos: nat)
    requires pos <= |f|
    ensures NextLine(f[pos..]) ==
      if pos == |f| then ("", "")
      else if f[pos] == '\0' then ("", f[pos + 1..])
      else if f[pos] == '\n' then ("\n", f[pos + 1..])
      else ([f[pos]] + NextLine(f[pos + 1..]).0, NextLine(f[pos + 1..]).1)
  {}

  /** The line being read is whole and then tail. */
  ghost predicate Reading(f: string, pos: nat, whole: string, tail: (string, string))
    requires pos <= |f|
  {
    NextLine(f[pos..]).0 == whole + tail.0 && NextLine(f[pos..]).1 == tail.1
  }

  lemma ReadingStep(f: string, pos: nat, whole: string, next: nat)
    requires pos <= next < |f| && Reading(f, pos, whole, NextLine(f[next..]))
    ensures f[next] == '\0' ==> Reading(f, pos, whole, ("", f[next + 1..]))
    ensures f[next] == '\n' ==> Reading(f, pos, whole + [f[next]], ("", f[next + 1..]))
    ensures f[next] != '\0' && f[next] != '\n' ==> Reading(f, pos, whole + [f[next]], NextLine(f[next + 1..]))
  {}

  /** Fill the line buffer up to and with a newline; when it is full the rest of the line is dropped. */
  method MyFgets(f: string, pos: nat) returns (line: string, next: nat)
    requires pos <= |f|
    ensures next <= |f| && line == Cut(NextLine(f[pos..]).0) && f[next..] == NextLine(f[pos..]).1
  {
    var done, left := false, LINE_MAX;
    line, next := "", pos;
    ghost var whole := "";
    assert "" + NextLine(f[pos..]).0 == NextLine(f[pos..]).0;
    while !done
      invariant pos <= next <= |f| && left == LINE_MAX - |line| && line == Cut(whole)
      invariant Reading(f, pos, whole, if done then ("", f[next..]) else NextLine(f[next..]))
      decreases if done then 0 else 1 + |f| - next
    {
      if next == |f| {
        NextLineAt(f, next);
        done := true;
      } else {
        ReadingStep(f, pos, whole, next);
        var c := f[next];
        next := next + 1;
        if c == '\0' {
          done := true;
        } else {
          if left > 0 {
            line := line + [c];
            left := left - 1;
          }
          whole := whole + [c];
          if c == '\n' { done := true; }
        }
      }
    }
    assert whole + "" == whole;
  }

  /** Append to the cache what the text holds, as far as it can be understood. */
  method Read(cache: PLCache, f: string) returns (ok: bool)
    requires cache.Valid()
    modifies cache, cache.entries
    ensures ok && cache.Valid() && cache.maxEntries == old(cache.maxEntries)
    ensures old(cache.entries) <= cache.entries
    ensures Lists(cache.entries) == Parse(f, Nowhere, [], Lists(old(cache.entries)))
  {
    var place, pos, stop := Nowhere, 0, false;
    var pl := new NiList<Property>();
    ghost var before := cache.entries;
    assert f[0..] == f;
    while !stop
      invariant pos <= |f| && cache.Valid() && cache.maxEntries == old(cache.maxEntries)
      invariant pl.Valid() && fresh(pl) && fresh(pl.val)
      invariant before <= cache.entries && forall i :: |before| <= i < |cache.entries| ==> fresh(cache.entries[i])
      invariant Parse(f, Nowhere, [], Lists(before)) ==
        if stop then Lists(cache.entries) else Parse(f[pos..], place, pl.Contents(), Lists(cache.entries))
      decreases if stop then 0 else 1 + |f| - pos
    {
      var line, next := MyFgets(f, pos);
      if line == "" {
        stop := true;
      } else {
        assert |f[next..]| < |f[pos..]|;
        place, stop := TakeLine(cache, pl, place, line, f[next..]);
      }
      pos := next;
    }
    pl.Free();
    return true;
  }

  /** What the reader does with a line; stop is an error, which leaves what was read before. */
  method TakeLine(cache: PLCache, pl: NiList<Property>, place: Where, line: string, ghost rest: string)
    returns (place': Where, stop: bool)
    requires cache.Valid() && pl.Valid() && line != ""
    modifies cache, cache.entries, pl
    ensures cache.Valid() && cache.maxEntries == old(cache.maxEntries)
    ensures pl.Valid() && (pl.val == old(pl.val) || fresh(pl.val))
    ensures old(cache.entries) <= cache.entries
    ensures forall i :: |old(cache.entries)| <= i < |cache.entries| ==> fresh(cache.entries[i])
    ensures ParseLine(line, rest, place, old(pl.Contents()), Lists(old(cache.entries))) ==
      if stop then Lists(cache.entries) else Parse(rest, place', pl.Contents(), Lists(cache.entries))
  {
    place', stop := place, false;
    if line == "{\n" {
      if place != End && place != Nowhere { stop := true; } else { place' := Start; }
    } else if line == "}\n" {
      if place != Start && place != Body {
        stop := true;
      } else {
        if pl.len > 0 {
          AppendCopy(cache, pl);
          pl.Free();
        }
        place' := End;
      }
    } else {
      var white := WhiteSpan(line);
      if white != |line| {
        TakeProp(pl, line);
        place' := Body;
      }
    }
  }

  /** The property on the line goes to the end of the list. */
  method TakeProp(pl: NiList<Property>, line: string)
    requires pl.Valid() && WhiteSpan(line) < |line|
    modifies pl
    ensures pl.Valid() && fresh(pl.val) && pl.Contents() == old(pl.Contents()) + [ParseProp(line)]
  {
    var sep := FirstOf(line, '=');
    var value := None;
    if sep < |line| { value := Some(ValuePart(line, sep)); }
    InsertProp(pl, NamePart(line), value, None);
  }

  /** A new entry with a copy of the list, at the end. */
  method AppendCopy(cache: PLCache, pl: NiList<Property>)
    requires cache.Valid() && pl.Valid()
    modifies cache, cache.entries
    ensures cache.Valid() && cache.maxEntries == old(cache.maxEntries) && pl.Contents() == old(pl.Contents())
    ensures |cache.entries| == |old(cache.entries)| + 1 && old(cache.entries) <= cache.entries
    ensures fresh(cache.entries[|old(cache.entries)|])
    ensures Lists(cache.entries) == Lists(old(cache.entries)) + [pl.Contents()]
  {
    var copy := pl.Dup();
    var entry := new Entry(copy.val[..]);
    cache.Append(entry);
  }

  /** The text of a cache. */
  method Write(cache: PLCache) returns (f: string)
    requires cache.Valid()
    ensures f == Print(Lists(cache.entries))
  {
    f := "";
    var scan := cache.head;
    ghost var lists, k := Lists(cache.entries), 0;
    assert lists[0..] == lists;
    while scan != null
      invariant k <= |lists| && scan == (if k < |lists| then cache.entries[k] else null)
      invariant f + Print(lists[k..]) == Print(lists)
      decreases |lists| - k
    {
      var g := WriteList(scan.pl);
      assert lists[k..][0] == scan.pl && lists[k..][1..] == lists[k + 1..];
      assert f + (g + Print(lists[k + 1..])) == f + g + Print(lists[k + 1..]);
      f := f + g;
      assert LinkedAt(cache.entries, k);
      scan := scan.next;
      k := k + 1;
    }
    assert f + "" == f;
  }

  method WriteList(pl: Proplist) returns (f: string)
    ensures f == "{\n" + PrintProps(pl) + "}\n"
  {
    f := "{\n";
    var i := 0;
    assert pl[0..] == pl;
    while i < |pl|
      invariant i <= |pl| && f + PrintProps(pl[i..]) == "{\n" + PrintProps(pl)
    {
      var line;
      if |pl[i].values| == 0 {
        line := "\t" + pl[i].name + "\n";
      } else {
        line := "\t" + pl[i].name + "=" + pl[i].values[0] + "\n";
      }
      assert line == PrintProp(pl[i]);
      assert pl[i..][0] == pl[i] && pl[i..][1..] == pl[i + 1..];
      assert f + (line + PrintProps(pl[i + 1..])) == f + line + PrintProps(pl[i + 1..]);
      f := f + line;
      i := i + 1;
    }
    assert f + "" == f;
    f := f + "}\n";
  }

  /**
   * Writing a cache and reading the text into a new one: the same lists in the same order, each
   * property with its first value, exactly when every list and property can be printed safely.
   */
  method WriteThenRead(cache: PLCache) returns (copy: PLCache)
    requires cache.Valid() && CStrings(Lists(cache.entries))
    ensures fresh(copy) && copy.Valid()
    ensures Lists(copy.entries) == FirstValues(Lists(cache.entries)) <==> CacheOk(Lists(cache.entries))
  {
    var f := Write(cache);
    copy := new PLCache();
    ghost var none := Lists(copy.entries);
    var ok := Read(copy, f);
    assert none == [];
    RoundTrip(Lists(cache.entries));
  }
}

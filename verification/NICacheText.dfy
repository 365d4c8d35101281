/**
 * The cache file as text: what the printer writes for a cache and what the line-by-line reader makes
 * of any text, and exactly when the second undoes the first. Strings stand for C strings; a text may
 * hold any character, also '\0'.
 */
module NICacheText {
  import opened Netinfo

  const LINE_MAX := 1023
  const NAME_MAX := 127
  const VALUE_MAX := 767

  type Proplist = seq<Property>

  // The printer

  function PrintProp(p: Property): string {
    "\t" + p.name + (if p.values == [] then "" else "=" + p.values[0]) + "\n"
  }

  function PrintProps(pl: Proplist): string {
    if pl == [] then "" else PrintProp(pl[0]) + PrintProps(pl[1..])
  }

  function Print(c: seq<Proplist>): string {
    if c == [] then "" else "{\n" + PrintProps(c[0]) + "}\n" + Print(c[1..])
  }

  /** The text of a list with a valued and a bare property, letter by letter. */
  lemma PrintedFormat(name: string, value: string, others: seq<string>, bare: string)
    ensures Print([[Property(name, [value] + others), Property(bare, [])]])
         == "{\n" + "\t" + name + "=" + value + "\n" + "\t" + bare + "\n" + "}\n"
  {
    var p, q := Property(name, [value] + others), Property(bare, []);
    assert [p, q][1..] == [q] && [q][1..] == [];
    assert PrintProps([q]) == PrintProp(q) + PrintProps([]);
    assert PrintProp(p) == "\t" + name + ("=" + value) + "\n";
    assert [[p, q]][1..] == [];
    assert Print([[p, q]]) == "{\n" + PrintProps([p, q]) + "}\n" + Print([]);
    assert PrintProp(q) == "\t" + bare + "" + "\n";
  }

  // The reader

  predicate White(c: char) { c == ' ' || c == '\t' || c == '\n' }

  /** The number of white characters at the front. */
  function WhiteSpan(s: string): (n: nat)
    ensures n <= |s| && (forall i :: 0 <= i < n ==> White(s[i])) && (n < |s| ==> !White(s[n]))
  {
    if s != "" && White(s[0]) then 1 + WhiteSpan(s[1..]) else 0
  }

  /** The place of the first c, or the length. */
  function FirstOf(s: string, c: char): (n: nat)
    ensures n <= |s| && (forall i :: 0 <= i < n ==> s[i] != c) && (n < |s| ==> s[n] == c)
  {
    if s == "" || s[0] == c then 0 else 1 + FirstOf(s[1..], c)
  }

  /** A line up to and with its newline, cut short by '\0' or the end of the text; and the text after it. */
  function NextLine(f: string): (r: (string, string))
    ensures |r.0| + |r.1| <= |f| && (r.0 != "" ==> |r.1| < |f|)
  {
    if f == "" then ("", "")
    else if f[0] == '\0' then ("", f[1..])
    else if f[0] == '\n' then ("\n", f[1..])
    else var r := NextLine(f[1..]); ([f[0]] + r.0, r.1)
  }

  /** What fits in the line buffer. */
  function Cut(line: string): string { if |line| <= LINE_MAX then line else line[..LINE_MAX] }

  function Limited(n: int, max: nat): nat { if 0 <= n <= max then n else max }

  /** From the first non-white character to the first '=', or, without one, to before the last character. */
  function NamePart(line: string): string
    requires WhiteSpan(line) < |line|
  {
    var white, sep := WhiteSpan(line), FirstOf(line, '=');
    SepAfterWhite(line);
    line[white..white + Limited((if sep < |line| then sep else |line| - 1) - white, NAME_MAX)]
  }

  /** From after the '=' to before the last character; a '=' at the end makes the length negative, taken for huge. */
  function ValuePart(line: string, sep: nat): string
    requires sep < |line|
  {
    var end := sep + 1 + Limited(|line| - sep - 2, VALUE_MAX);
    if end <= |line| then line[sep + 1..end] else line[sep + 1..]
  }

  /** The property on a line, whose last character is taken to be the newline. */
  function ParseProp(line: string): Property
    requires WhiteSpan(line) < |line|
  {
    var sep := FirstOf(line, '=');
    Property(NamePart(line), if sep < |line| then [ValuePart(line, sep)] else [])
  }

  lemma SepAfterWhite(line: string)
    ensures FirstOf(line, '=') < |line| ==> WhiteSpan(line) <= FirstOf(line, '=')
  {}

  datatype Where = Nowhere | Start | Body | End

  /** The reader's loop: text left, place in the file, properties so far, lists read; an error stops it there. */
  function Parse(f: string, where_: Where, pl: Proplist, done: seq<Proplist>): seq<Proplist>
    decreases |f|, 1
  {
    var line, rest := Cut(NextLine(f).0), NextLine(f).1;
    if line == "" then done else ParseLine(line, rest, where_, pl, done)
  }

  /** One line, and then the rest. */
  function ParseLine(line: string, rest: string, where_: Where, pl: Proplist, done: seq<Proplist>): seq<Proplist>
    decreases |rest| + 1, 0
  {
    if line == "{\n" then
      if where_.End? || where_.Nowhere? then Parse(rest, Start, pl, done) else done
    else if line == "}\n" then
      if where_.Start? || where_.Body? then
        if |pl| > 0 then Parse(rest, End, [], done + [pl]) else Parse(rest, End, pl, done)
      else done
    else if WhiteSpan(line) == |line| then Parse(rest, where_, pl, done)
    else Parse(rest, Body, pl + [ParseProp(line)], done)
  }

  function Read(f: string): seq<Proplist> { Parse(f, Nowhere, [], []) }

  // What reading gives, whatever the text

  /** A name or value that can come out of a line. */
  predicate Clean(s: string, max: nat) { |s| <= max && '\n' !in s && '\0' !in s }

  predicate NameOk(name: string) { Clean(name, NAME_MAX) && '=' !in name && (name == "" || !White(name[0])) }

  /** The reader can produce the name and the first value. */
  predicate PropReadable(p: Property) { NameOk(p.name) && (p.values != [] ==> Clean(p.values[0], VALUE_MAX)) }

  ghost predicate Readable(c: seq<Proplist>) {
    forall i :: 0 <= i < |c| ==> c[i] != [] && PropsReadable(c[i])
  }

  ghost predicate PropsReadable(pl: Proplist) { forall j :: 0 <= j < |pl| ==> PropReadable(pl[j]) }

  /** A line holds no '\0', and a newline only as its last character. */
  ghost predicate LineOk(line: string) {
    '\0' !in line && forall i :: 0 <= i < |line| - 1 ==> line[i] != '\n'
  }

  lemma {:induction false} NextLineOk(f: string)
    ensures LineOk(NextLine(f).0)
  {
    if f != "" && f[0] != '\0' && f[0] != '\n' {
      NextLineOk(f[1..]);
    }
  }

  lemma ParsedNameOk(line: string)
    requires LineOk(line) && WhiteSpan(line) < |line|
    ensures NameOk(NamePart(line))
  {}

  lemma ParsedValueOk(line: string, sep: nat)
    requires LineOk(line) && sep < |line|
    ensures Clean(ValuePart(line, sep), VALUE_MAX)
  {}

  lemma ParsePropReadable(line: string)
    requires LineOk(line) && WhiteSpan(line) < |line|
    ensures PropReadable(ParseProp(line))
  {
    ParsedNameOk(line);
    if FirstOf(line, '=') < |line| { ParsedValueOk(line, FirstOf(line, '=')); }
  }

  /** Whatever the text, every list read is non-empty and every property in it readable. */
  lemma {:induction false} ParseReadable(f: string, where_: Where, pl: Proplist, done: seq<Proplist>)
    requires PropsReadable(pl) && Readable(done)
    ensures Readable(Parse(f, where_, pl, done))
    decreases |f|
  {
    var line, rest := Cut(NextLine(f).0), NextLine(f).1;
    NextLineOk(f);
    if line == "" {
    } else if line == "{\n" {
      if where_.End? || where_.Nowhere? { ParseReadable(rest, Start, pl, done); }
    } else if line == "}\n" {
      if where_.Start? || where_.Body? {
        if |pl| > 0 { ParseReadable(rest, End, [], done + [pl]); } else { ParseReadable(rest, End, pl, done); }
      }
    } else if WhiteSpan(line) == |line| {
      ParseReadable(rest, where_, pl, done);
    } else {
      ParsePropReadable(line);
      ParseReadable(rest, Body, pl + [ParseProp(line)], done);
    }
  }

  // What reading gives for a printed cache

  function FirstValue(p: Property): Property { Property(p.name, if p.values == [] then [] else [p.values[0]]) }

  function FirstValuesOf(pl: Proplist): (r: Proplist)
    ensures |r| == |pl|
  {
    seq(|pl|, i requires 0 <= i < |pl| => FirstValue(pl[i]))
  }

  /** Each property with its first value only. */
  function FirstValues(c: seq<Proplist>): (r: seq<Proplist>)
    ensures |r| == |c|
  {
    seq(|c|, i requires 0 <= i < |c| => FirstValuesOf(c[i]))
  }

  /** Printed as a line of white space only. */
  predicate Blank(p: Property) { p.name == "" && p.values == [] }

  function KeptProps(pl: Proplist): Proplist {
    if pl == [] then [] else (if Blank(pl[0]) then [] else [FirstValue(pl[0])]) + KeptProps(pl[1..])
  }

  /** What survives: the properties that are not blank, in the lists that have one. */
  function Kept(c: seq<Proplist>): seq<Proplist> {
    if c == [] then [] else (if KeptProps(c[0]) == [] then [] else [KeptProps(c[0])]) + Kept(c[1..])
  }

  lemma {:induction false} PrintedLine(body: string, rest: string)
    requires '\n' !in body && '\0' !in body
    ensures NextLine(body + "\n" + rest) == (body + "\n", rest)
  {
    var f := body + "\n" + rest;
    if body == "" {
      assert f == "\n" + rest && f[0] == '\n' && f[1..] == rest;
    } else {
      assert f[1..] == body[1..] + "\n" + rest;
      PrintedLine(body[1..], rest);
      assert f[0] == body[0] && [body[0]] + (body[1..] + "\n") == body + "\n";
    }
  }

  /** A brace where none belongs ends the reading there and then. */
  lemma StrayBraces(rest: string, where_: Where, pl: Proplist, done: seq<Proplist>)
    ensures where_.Start? || where_.Body? ==> Parse("{\n" + rest, where_, pl, done) == done
    ensures where_.Nowhere? || where_.End? ==> Parse("}\n" + rest, where_, pl, done) == done
  {
    PrintedLine("{", rest);
    PrintedLine("}", rest);
    assert "{" + "\n" + rest == "{\n" + rest && "}" + "\n" + rest == "}\n" + rest;
    assert "{" + "\n" == "{\n" && "}" + "\n" == "}\n";
  }

  lemma {:induction false} FirstOfIs(s: string, c: char, n: nat)
    requires n <= |s| && (forall i :: 0 <= i < n ==> s[i] != c) && (n < |s| ==> s[n] == c)
    ensures FirstOf(s, c) == n
  {}

  /** A printed readable property is one line within the buffer, and no brace. */
  lemma PrintedPropLine(p: Property, rest: string)
    requires PropReadable(p)
    ensures NextLine(PrintProp(p) + rest) == (PrintProp(p), rest)
    ensures |PrintProp(p)| <= LINE_MAX && PrintProp(p)[0] == '\t'
  {
    var body := "\t" + p.name + if p.values == [] then "" else "=" + p.values[0];
    assert PrintProp(p) == body + "\n" && PrintProp(p) + rest == body + "\n" + rest;
    PrintedLine(body, rest);
  }

  lemma PrintedPropWhite(p: Property)
    requires PropReadable(p)
    ensures WhiteSpan(PrintProp(p)) == if Blank(p) then |PrintProp(p)| else 1
  {}

  lemma PrintedBare(p: Property)
    requires PropReadable(p) && p.values == [] && !Blank(p)
    ensures WhiteSpan(PrintProp(p)) == 1 && ParseProp(PrintProp(p)) == FirstValue(p)
  {}

  lemma PrintedValued(p: Property)
    requires PropReadable(p) && p.values != []
    ensures WhiteSpan(PrintProp(p)) == 1 && ParseProp(PrintProp(p)) == FirstValue(p)
  {
    var line, sep := PrintProp(p), 1 + |p.name|;
    PrintedPropWhite(p);
    FirstOfIs(line, '=', sep);
    assert line[1..sep] == p.name;
    assert line[sep + 1..sep + 1 + |p.values[0]|] == p.values[0];
  }

  /** A printed readable property is white space if it is blank, and reads back if it is not. */
  lemma PrintedProp(p: Property)
    requires PropReadable(p)
    ensures WhiteSpan(PrintProp(p)) == |PrintProp(p)| <==> Blank(p)
    ensures !Blank(p) ==> ParseProp(PrintProp(p)) == FirstValue(p)
  {
    PrintedPropWhite(p);
    if p.values != [] { PrintedValued(p); } else if !Blank(p) { PrintedBare(p); }
  }

  lemma PropStep(p: Property, rest: string, where_: Where, pl: Proplist, done: seq<Proplist>)
    requires PropReadable(p)
    ensures Parse(PrintProp(p) + rest, where_, pl, done)
      == if Blank(p) then Parse(rest, where_, pl, done) else Parse(rest, Body, pl + [FirstValue(p)], done)
  {
    PrintedPropLine(p, rest);
    PrintedProp(p);
  }

  lemma OpenStep(rest: string, where_: Where, pl: Proplist, done: seq<Proplist>)
    requires where_.Nowhere? || where_.End?
    ensures Parse("{\n" + rest, where_, pl, done) == Parse(rest, Start, pl, done)
  {
    assert "{\n" + rest == "{" + "\n" + rest;
    PrintedLine("{", rest);
  }

  lemma CloseStep(rest: string, where_: Where, pl: Proplist, done: seq<Proplist>)
    requires where_.Start? || where_.Body?
    ensures Parse("}\n" + rest, where_, pl, done) == Parse(rest, End, [], if pl == [] then done else done + [pl])
  {
    assert "}\n" + rest == "}" + "\n" + rest;
    PrintedLine("}", rest);
  }

  /** Where the reader is after some properties. */
  function After(kept: Proplist, where_: Where): Where { if kept == [] then where_ else Body }

  lemma PrintedPropsStep(ps: Proplist, rest: string, where_: Where, pl: Proplist, done: seq<Proplist>)
    requires ps != [] && PropReadable(ps[0])
    ensures Parse(PrintProps(ps) + rest, where_, pl, done)
      == if Blank(ps[0]) then Parse(PrintProps(ps[1..]) + rest, where_, pl, done)
         else Parse(PrintProps(ps[1..]) + rest, Body, pl + [FirstValue(ps[0])], done)
  {
    assert PrintProps(ps) + rest == PrintProp(ps[0]) + (PrintProps(ps[1..]) + rest);
    PropStep(ps[0], PrintProps(ps[1..]) + rest, where_, pl, done);
  }

  lemma TailReadable(ps: Proplist)
    requires PropsReadable(ps) && ps != []
    ensures PropReadable(ps[0]) && PropsReadable(ps[1..])
  {}

  lemma Assoc<T>(a: seq<T>, b: seq<T>, c: seq<T>)
    ensures a + b + c == a + (b + c)
  {}

  lemma KeptStep(ps: Proplist, where_: Where, pl: Proplist)
    requires ps != []
    ensures Blank(ps[0]) ==> KeptProps(ps) == KeptProps(ps[1..])
    ensures !Blank(ps[0]) ==> After(KeptProps(ps), where_) == Body == After(KeptProps(ps[1..]), Body)
    ensures !Blank(ps[0]) ==> pl + [FirstValue(ps[0])] + KeptProps(ps[1..]) == pl + KeptProps(ps)
  {}

  lemma {:induction false} PrintedProps(ps: Proplist, rest: string, where_: Where, pl: Proplist, done: seq<Proplist>)
    requires PropsReadable(ps)
    ensures Parse(PrintProps(ps) + rest, where_, pl, done)
         == Parse(rest, After(KeptProps(ps), where_), pl + KeptProps(ps), done)
    decreases |ps|
  {
    if ps == [] {
      assert PrintProps(ps) + rest == rest && pl + [] == pl;
    } else {
      TailReadable(ps);
      PrintedPropsStep(ps, rest, where_, pl, done);
      KeptStep(ps, where_, pl);
      if Blank(ps[0]) {
        PrintedProps(ps[1..], rest, where_, pl, done);
      } else {
        PrintedProps(ps[1..], rest, Body, pl + [FirstValue(ps[0])], done);
      }
    }
  }

  lemma PrintedList(ps: Proplist, rest: string, where_: Where, done: seq<Proplist>)
    requires PropsReadable(ps) && (where_.Nowhere? || where_.End?)
    ensures Parse("{\n" + PrintProps(ps) + "}\n" + rest, where_, [], done)
      == Parse(rest, End, [], Grown(done, KeptProps(ps)))
  {
    var more := "}\n" + rest;
    assert "{\n" + PrintProps(ps) + "}\n" + rest == "{\n" + (PrintProps(ps) + more);
    OpenStep(PrintProps(ps) + more, where_, [], done);
    PrintedProps(ps, more, Start, [], done);
    assert [] + KeptProps(ps) == KeptProps(ps);
    CloseStep(rest, After(KeptProps(ps), Start), KeptProps(ps), done);
  }

  function Grown(done: seq<Proplist>, kept: Proplist): seq<Proplist> { if kept == [] then done else done + [kept] }

  lemma KeptListStep(c: seq<Proplist>, done: seq<Proplist>)
    requires c != []
    ensures Grown(done, KeptProps(c[0])) + Kept(c[1..]) == done + Kept(c)
  {
    if KeptProps(c[0]) != [] {
      Assoc(done, [KeptProps(c[0])], Kept(c[1..]));
    } else {
      assert [] + Kept(c[1..]) == Kept(c[1..]);
    }
  }

  lemma {:induction false} PrintedCache(c: seq<Proplist>, where_: Where, done: seq<Proplist>)
    requires Readable(c) && (where_.Nowhere? || where_.End?)
    ensures Parse(Print(c), where_, [], done) == done + Kept(c)
    decreases |c|
  {
    if c != [] {
      PrintedList(c[0], Print(c[1..]), where_, done);
      PrintedCache(c[1..], End, Grown(done, KeptProps(c[0])));
      KeptListStep(c, done);
    }
  }

  // When nothing is lost

  ghost predicate AllKept(c: seq<Proplist>) { forall i :: 0 <= i < |c| ==> NoneBlank(c[i]) }

  ghost predicate NoneBlank(pl: Proplist) { forall j :: 0 <= j < |pl| ==> !Blank(pl[j]) }

  lemma {:induction false} KeptPropsAll(pl: Proplist)
    ensures |KeptProps(pl)| <= |pl|
    ensures NoneBlank(pl) ==> KeptProps(pl) == FirstValuesOf(pl)
    ensures |KeptProps(pl)| == |pl| ==> NoneBlank(pl)
  {
    if pl != [] { KeptPropsAll(pl[1..]); }
  }

  function Total(c: seq<Proplist>): nat { if c == [] then 0 else |c[0]| + Total(c[1..]) }

  lemma {:induction false} SameTotal(c: seq<Proplist>)
    ensures Total(FirstValues(c)) == Total(c)
  {
    if c != [] {
      assert FirstValues(c)[1..] == FirstValues(c[1..]);
      SameTotal(c[1..]);
    }
  }

  lemma {:induction false} KeptAll(c: seq<Proplist>)
    requires forall i :: 0 <= i < |c| ==> c[i] != []
    ensures Total(Kept(c)) <= Total(c)
    ensures AllKept(c) ==> Kept(c) == FirstValues(c)
    ensures Total(Kept(c)) == Total(c) ==> AllKept(c)
  {
    if c != [] {
      KeptPropsAll(c[0]);
      KeptAll(c[1..]);
      var head := if KeptProps(c[0]) == [] then [] else [KeptProps(c[0])];
      assert Kept(c) == head + Kept(c[1..]);
      if head != [] { assert Kept(c)[1..] == Kept(c[1..]); } else { assert Kept(c) == Kept(c[1..]); }
      if Total(Kept(c)) == Total(c) {
        forall i | 0 <= i < |c| ensures NoneBlank(c[i]) { assert i > 0 ==> c[i] == c[1..][i - 1]; }
      }
      if AllKept(c) {
        forall i | 0 <= i < |c[1..]| ensures NoneBlank(c[1..][i]) { assert c[1..][i] == c[i + 1]; }
        assert FirstValues(c) == [FirstValuesOf(c[0])] + FirstValues(c[1..]);
      }
    }
  }

  /** No '\0' anywhere: names and values are C strings. */
  ghost predicate CStrings(c: seq<Proplist>) {
    forall i, j :: 0 <= i < |c| && 0 <= j < |c[i]| ==> CStringProp(c[i][j])
  }

  predicate CStringProp(p: Property) { '\0' !in p.name && (p.values != [] ==> '\0' !in p.values[0]) }

  /** A property that survives printing and reading. */
  predicate PropOk(p: Property) {
    && |p.name| <= 127 && '=' !in p.name && '\n' !in p.name
    && (p.name == "" || !White(p.name[0]))
    && (p.values == [] ==> p.name != "")
    && (p.values != [] ==> |p.values[0]| <= 767 && '\n' !in p.values[0])
  }

  ghost predicate CacheOk(c: seq<Proplist>) {
    forall i :: 0 <= i < |c| ==> c[i] != [] && PropsOk(c[i])
  }

  ghost predicate PropsOk(pl: Proplist) { forall j :: 0 <= j < |pl| ==> PropOk(pl[j]) }

  lemma OkIsReadableAndKept(c: seq<Proplist>)
    requires CStrings(c)
    ensures CacheOk(c) <==> Readable(c) && AllKept(c)
  {}

  /**
   * Reading back what was printed gives the same lists in the same order, each property with its
   * first value, exactly when every list is non-empty and every property can be printed safely.
   */
  lemma RoundTrip(c: seq<Proplist>)
    requires CStrings(c)
    ensures Read(Print(c)) == FirstValues(c) <==> CacheOk(c)
  {
    OkIsReadableAndKept(c);
    if Read(Print(c)) == FirstValues(c) {
      ParseReadable(Print(c), Nowhere, [], []);
      ReadableFromFirst(c);
    }
    if Readable(c) {
      PrintedCache(c, Nowhere, []);
      assert [] + Kept(c) == Kept(c);
      KeptAll(c);
      SameTotal(c);
    }
  }

  lemma ReadableFromFirst(c: seq<Proplist>)
    requires Readable(FirstValues(c))
    ensures Readable(c)
  {
    forall i | 0 <= i < |c| ensures c[i] != [] && PropsReadable(c[i]) {
      var pl := FirstValues(c)[i];
      assert pl != [] && PropsReadable(pl);
      forall j | 0 <= j < |c[i]| ensures PropReadable(c[i][j]) { assert PropReadable(pl[j]); }
    }
  }

  /** Whatever text was read, printing that and reading it again loses at most the blank properties. */
  lemma SecondTrip(f: string)
    ensures Read(Print(Read(f))) == Kept(Read(f))
  {
    ParseReadable(f, Nowhere, [], []);
    PrintedCache(Read(f), Nowhere, []);
    assert [] + Kept(Read(f)) == Kept(Read(f));
  }
}

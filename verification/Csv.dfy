/** Text helpers the ledger relies on: `split`, `join` and `trim` as JavaScript defines them. */
module Csv {
  import opened Wrappers
  import Sequences

  function Split(s: string, sep: char): (parts: seq<string>)
    ensures |parts| >= 1
  {
    if s == "" then [""]
    else
      var rest := Split(s[1..], sep);
      if s[0] == sep then [""] + rest else [[s[0]] + rest[0]] + rest[1..]
  }

  function Join(parts: seq<string>, sep: char): string {
    if parts == [] then "" else if |parts| == 1 then parts[0] else parts[0] + [sep] + Join(parts[1..], sep)
  }

  /** White space and line terminators, as `String.prototype.trim` removes them. */
  predicate IsSpace(c: char) {
    || '\t' <= c <= '\r' || c == ' ' || c == '\U{00A0}' || c == '\U{1680}' || '\U{2000}' <= c <= '\U{200A}'
    || c == '\U{2028}' || c == '\U{2029}' || c == '\U{202F}' || c == '\U{205F}' || c == '\U{3000}' || c == '\U{FEFF}'
  }

  /** The same, one character at a time. */
  lemma SpaceIff(c: char)
    ensures IsSpace(c)
       <==> c in "\t\n\U{000B}\U{000C}\r \U{00A0}\U{1680}\U{2000}\U{2001}\U{2002}\U{2003}\U{2004}\U{2005}"
              + "\U{2006}\U{2007}\U{2008}\U{2009}\U{200A}\U{2028}\U{2029}\U{202F}\U{205F}\U{3000}\U{FEFF}"
  {
    var a := "\t\n\U{000B}\U{000C}\r \U{00A0}\U{1680}\U{2000}\U{2001}\U{2002}\U{2003}\U{2004}\U{2005}";
    var b := "\U{2006}\U{2007}\U{2008}\U{2009}\U{200A}\U{2028}\U{2029}\U{202F}\U{205F}\U{3000}\U{FEFF}";
    assert c in a + b <==> c in a || c in b;
  }

  function TrimLeft(s: string): (r: string)
    ensures |r| <= |s| && (r == "" || !IsSpace(r[0]))
  {
    if s != "" && IsSpace(s[0]) then TrimLeft(s[1..]) else s
  }

  function TrimRight(s: string): (r: string)
    ensures r <= s && (r == "" || !IsSpace(r[|r| - 1]))
  {
    if s != "" && IsSpace(s[|s| - 1]) then TrimRight(s[..|s| - 1]) else s
  }

  function Trim(s: string): string {
    TrimRight(TrimLeft(s))
  }

  // ---------------------------------------------------------------- splitting

  /** A character in front: a new empty part, or one more character on the first part. */
  function Consed(c: char, parts: seq<string>, sep: char): seq<string>
    requires |parts| >= 1
  {
    if c == sep then [""] + parts else [[c] + parts[0]] + parts[1..]
  }

  lemma SplitCons(c: char, s: string, sep: char)
    ensures Split([c] + s, sep) == Consed(c, Split(s, sep), sep)
  {
    assert ([c] + s)[1..] == s;
  }

  lemma ConsedConcat(c: char, x: seq<string>, y: seq<string>, sep: char)
    requires |x| >= 1
    ensures Consed(c, x + y, sep) == Consed(c, x, sep) + y
  {
    assert (x + y)[0] == x[0] && (x + y)[1..] == x[1..] + y;
  }

  lemma {:induction false} SplitConcat(a: string, b: string, sep: char)
    ensures Split(a + [sep] + b, sep) == Split(a, sep) + Split(b, sep)
  {
    if a == "" {
      SplitCons(sep, b, sep);
      assert a + [sep] + b == [sep] + b;
    } else {
      SplitConcat(a[1..], b, sep);
      SplitCons(a[0], a[1..] + [sep] + b, sep);
      SplitCons(a[0], a[1..], sep);
      ConsedConcat(a[0], Split(a[1..], sep), Split(b, sep), sep);
      assert a + [sep] + b == [a[0]] + (a[1..] + [sep] + b);
      assert a == [a[0]] + a[1..];
    }
  }

  lemma {:induction false} SplitWhole(s: string, sep: char)
    requires sep !in s
    ensures Split(s, sep) == [s]
  {
    if s != "" {
      assert s[0] in s && forall c :: c in s[1..] ==> c in s;
      SplitWhole(s[1..], sep);
      assert [s[0]] + s[1..] == s;
    }
  }

  /** Joining and splitting again gives the parts back when none contains the separator. */
  lemma {:induction false} SplitJoin(parts: seq<string>, sep: char)
    requires |parts| >= 1 && forall i :: 0 <= i < |parts| ==> sep !in parts[i]
    ensures Split(Join(parts, sep), sep) == parts
  {
    SplitWhole(parts[0], sep);
    if |parts| > 1 {
      SplitJoin(parts[1..], sep);
      SplitConcat(parts[0], Join(parts[1..], sep), sep);
      assert [parts[0]] + parts[1..] == parts;
    }
  }

  lemma {:induction false} SplitChars(s: string, sep: char)
    ensures forall i :: 0 <= i < |Split(s, sep)| ==> sep !in Split(s, sep)[i]
    ensures forall i, c :: 0 <= i < |Split(s, sep)| && c in Split(s, sep)[i] ==> c in s
    ensures Split(s, sep)[0] <= s
  {
    if s != "" {
      SplitChars(s[1..], sep);
      assert s == [s[0]] + s[1..];
    }
  }

  // ---------------------------------------------------------------- trimming

  lemma {:induction false} TrimLeftStops(a: string, rest: string)
    requires rest != "" && !IsSpace(rest[0])
    ensures TrimLeft(a + rest) == TrimLeft(a) + rest
  {
    if a == "" {
      assert a + rest == rest;
    } else {
      assert (a + rest)[1..] == a[1..] + rest;
      TrimLeftStops(a[1..], rest);
    }
  }

  lemma {:induction false} TrimRightStops(rest: string, z: string)
    requires rest != "" && !IsSpace(rest[|rest| - 1])
    ensures TrimRight(rest + z) == rest + TrimRight(z)
  {
    if z == "" {
      assert rest + z == rest;
    } else {
      assert (rest + z)[..|rest + z| - 1] == rest + z[..|z| - 1];
      TrimRightStops(rest, z[..|z| - 1]);
    }
  }

  /** Trimming a line with a comma inside only touches its first and its last field. */
  lemma TrimOuter(a: string, inner: string, z: string)
    requires inner != "" && !IsSpace(inner[0]) && !IsSpace(inner[|inner| - 1])
    ensures Trim(a + inner + z) == TrimLeft(a) + inner + TrimRight(z)
  {
    assert a + inner + z == a + (inner + z);
    TrimLeftStops(a, inner + z);
    assert TrimLeft(a) + (inner + z) == (TrimLeft(a) + inner) + z;
    TrimRightStops(TrimLeft(a) + inner, z);
  }

  lemma {:induction false} TrimRightKeeps(s: string)
    requires s != "" && !IsSpace(s[0])
    ensures TrimRight(s) != ""
  {
    if IsSpace(s[|s| - 1]) {
      TrimRightKeeps(s[..|s| - 1]);
    }
  }

  /** White space in front does not matter. */
  lemma {:induction false} TrimBlank(blank: string, s: string)
    requires TrimLeft(blank) == ""
    ensures TrimLeft(blank + s) == TrimLeft(s)
  {
    if blank == "" {
      assert blank + s == s;
    } else {
      TrimBlank(blank[1..], s);
      assert (blank + s)[1..] == blank[1..] + s;
    }
  }

  lemma BlankIff(s: string)
    ensures Trim(s) == "" <==> TrimLeft(s) == ""
  {
    if TrimLeft(s) != "" {
      TrimRightKeeps(TrimLeft(s));
    }
  }

  /** What follows the last separator. */
  function Tail(s: string, sep: char): string {
    Split(s, sep)[|Split(s, sep)| - 1]
  }

  /** A text is its tail, or something, a separator and its tail. */
  lemma {:induction false} TailSplit(s: string, sep: char) returns (body: string)
    ensures sep !in Tail(s, sep)
    ensures if |Split(s, sep)| == 1 then s == Tail(s, sep) else s == body + [sep] + Tail(s, sep)
  {
    body := "";
    if s != "" {
      var rest := TailSplit(s[1..], sep);
      Sequences.HeadTail(s);
      if |Split(s[1..], sep)| > 1 {
        body := [s[0]] + rest;
        assert body + [sep] + Tail(s[1..], sep) == [s[0]] + (rest + [sep] + Tail(s[1..], sep));
      } else if s[0] == sep {
        assert s == body + [sep] + s[1..];
      }
    }
  }

  lemma TrimLeftFixed(s: string)
    ensures TrimLeft(s) == s <==> s == "" || !IsSpace(s[0])
  {
  }

  lemma TrimRightFixed(s: string)
    ensures TrimRight(s) == s <==> s == "" || !IsSpace(s[|s| - 1])
  {
  }

  lemma {:induction false} TrimLeftChars(s: string)
    ensures forall c :: c in TrimLeft(s) ==> c in s
  {
    if s != "" && IsSpace(s[0]) {
      TrimLeftChars(s[1..]);
    }
  }

  lemma TrimChars(s: string)
    ensures forall c :: c in Trim(s) ==> c in s
    ensures Trim(s) == "" || !IsSpace(Trim(s)[0])
  {
    var l := TrimLeft(s);
    TrimLeftChars(s);
    assert Trim(s) != "" ==> Trim(s)[0] == l[0];
  }

  predicate Blank(s: string) {
    forall i :: 0 <= i < |s| ==> IsSpace(s[i])
  }

  lemma {:induction false} TrimLeftCuts(s: string) returns (a: string)
    ensures Blank(a) && s == a + TrimLeft(s)
  {
    a := "";
    if s != "" && IsSpace(s[0]) {
      var rest := TrimLeftCuts(s[1..]);
      a := [s[0]] + rest;
      assert s == [s[0]] + s[1..];
    }
  }

  lemma {:induction false} TrimRightCuts(s: string) returns (b: string)
    ensures Blank(b) && s == TrimRight(s) + b
  {
    b := "";
    if s != "" && IsSpace(s[|s| - 1]) {
      var rest := TrimRightCuts(s[..|s| - 1]);
      b := rest + [s[|s| - 1]];
      assert s == s[..|s| - 1] + [s[|s| - 1]];
    }
  }

  /** Trimming cuts off white space at both ends, and all of it. */
  lemma TrimMeaning(s: string) returns (a: string, b: string)
    ensures Blank(a) && Blank(b) && s == a + Trim(s) + b
    ensures Trim(s) == "" || (!IsSpace(Trim(s)[0]) && !IsSpace(Trim(s)[|Trim(s)| - 1]))
  {
    a := TrimLeftCuts(s);
    b := TrimRightCuts(TrimLeft(s));
    Sequences.Associates(a, Trim(s), b);
    TrimChars(s);
  }

  // ---------------------------------------------------------------- lists of lines

  function FlatMap(lines: seq<string>, f: string -> seq<string>): seq<string> {
    if lines == [] then [] else f(lines[0]) + FlatMap(lines[1..], f)
  }

  lemma FlatMapCons(line: string, lines: seq<string>, f: string -> seq<string>)
    ensures FlatMap([line] + lines, f) == f(line) + FlatMap(lines, f)
  {
    assert ([line] + lines)[1..] == lines;
  }

  lemma {:induction false} FlatMapConcat(a: seq<string>, b: seq<string>, f: string -> seq<string>)
    ensures FlatMap(a + b, f) == FlatMap(a, f) + FlatMap(b, f)
  {
    if a == [] {
      Sequences.Unit(b);
      Sequences.Unit(FlatMap(b, f));
    } else {
      FlatMapConcat(a[1..], b, f);
      FlatMapCons(a[0], a[1..] + b, f);
      Sequences.HeadTail(a);
      Sequences.Associates([a[0]], a[1..], b);
      Sequences.Associates(f(a[0]), FlatMap(a[1..], f), FlatMap(b, f));
    }
  }

  /** `f` of every line; nothing when it throws on one of them. */
  function MapAll<T>(lines: seq<string>, f: string -> Option<T>): Option<seq<T>> {
    if lines == [] then Some([])
    else if f(lines[0]).None? then None
    else
      var rest := MapAll(lines[1..], f);
      if rest.None? then None else Some([f(lines[0]).value] + rest.value)
  }

  lemma {:induction false} MapAllSnoc<T>(lines: seq<string>, last: string, f: string -> Option<T>)
    requires MapAll(lines, f).Some? && f(last).Some?
    ensures MapAll(lines + [last], f) == Some(MapAll(lines, f).value + [f(last).value])
  {
    var all := lines + [last];
    if lines == [] {
      var none: seq<T>, one := [], [f(last).value];
      assert all[1..] == [] && all[0] == last && one + none == one == none + one;
    } else {
      MapAllSnoc(lines[1..], last, f);
      assert all[0] == lines[0] && all[1..] == lines[1..] + [last];
      var head, rest := f(lines[0]).value, MapAll(lines[1..], f).value;
      assert [head] + (rest + [f(last).value]) == ([head] + rest) + [f(last).value];
    }
  }

  lemma {:induction false} MapAllAt<T>(lines: seq<string>, f: string -> Option<T>)
    requires MapAll(lines, f).Some?
    ensures |MapAll(lines, f).value| == |lines|
    ensures forall i :: 0 <= i < |lines| ==> f(lines[i]) == Some(MapAll(lines, f).value[i])
  {
    if lines != [] {
      MapAllAt(lines[1..], f);
    }
  }
}

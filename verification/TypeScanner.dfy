/** Extracting the needed type declarations from a generated file, line by line. */
module TypeScanner {
  import opened Wrappers
  import opened Csv
  import Sequences

  // ---------------------------------------------------------------- one line

  predicate IsWord(c: char) {
    'a' <= c <= 'z' || 'A' <= c <= 'Z' || '0' <= c <= '9' || c == '_'
  }

  lemma LowerLetters(c: char)
    ensures 'a' <= c <= 'z' <==> c in "abcdefghijklmnopqrstuvwxyz"
  {
    if 'a' <= c <= 'z' {
      assert "abcdefghijklmnopqrstuvwxyz"[(c - 'a') as int] == c;
    }
  }

  lemma UpperLetters(c: char)
    ensures 'A' <= c <= 'Z' <==> c in "ABCDEFGHIJKLMNOPQRSTUVWXYZ"
  {
    if 'A' <= c <= 'Z' {
      assert "ABCDEFGHIJKLMNOPQRSTUVWXYZ"[(c - 'A') as int] == c;
    }
  }

  /** Letters, digits and the underscore make up a word. */
  lemma WordCharacters(c: char)
    ensures IsWord(c)
       <==> c in "abcdefghijklmnopqrstuvwxyz" || c in "ABCDEFGHIJKLMNOPQRSTUVWXYZ" || c in "0123456789_"
  {
    LowerLetters(c);
    UpperLetters(c);
  }

  function Word(s: string): string {
    if s != "" && IsWord(s[0]) then [s[0]] + Word(s[1..]) else ""
  }

  function After(s: string, prefix: string): Option<string> {
    if |prefix| <= |s| && s[..|prefix|] == prefix then Some(s[|prefix|..]) else None
  }

  /** The declared name when the text starts with a declaration. */
  function HeaderHere(s: string): Option<string> {
    var rest := if After(s, "export type ").Some? then After(s, "export type ") else After(s, "export interface ");
    if rest.Some? && Word(rest.value) != "" then Some(Word(rest.value)) else None
  }

  /** The first declaration anywhere in the line. */
  function Header(line: string): Option<string> {
    if line == "" then None
    else if HeaderHere(line).Some? then HeaderHere(line)
    else Header(line[1..])
  }

  function Count(line: string, c: char): nat {
    if line == "" then 0 else (if line[0] == c then 1 else 0) + Count(line[1..], c)
  }

  function Braces(line: string): int {
    Count(line, '{') - Count(line, '}')
  }

  predicate EndsWith(line: string, c: char) {
    var t := Trim(line);
    t != "" && t[|t| - 1] == c
  }

  // ---------------------------------------------------------------- what a line says

  predicate Wordy(w: string) {
    forall k :: 0 <= k < |w| ==> IsWord(w[k])
  }

  /** The text starts with `kind` and, right behind it, a word that ends there. */
  predicate Declares(s: string, kind: string, w: string) {
    && |kind| + |w| <= |s| && s[..|kind|] == kind && s[|kind|..|kind| + |w|] == w && w != "" && Wordy(w)
    && (|kind| + |w| < |s| ==> !IsWord(s[|kind| + |w|]))
  }

  /** A type or an interface of this name is declared at this position. */
  predicate DeclaresAt(line: string, i: int, w: string) {
    0 <= i <= |line| && (Declares(line[i..], "export type ", w) || Declares(line[i..], "export interface ", w))
  }

  predicate NothingAt(line: string, i: int) {
    0 <= i <= |line| ==> HeaderHere(line[i..]).None?
  }

  lemma {:induction false} WordIs(s: string, w: string)
    requires |w| <= |s| && s[..|w|] == w && (|w| < |s| ==> !IsWord(s[|w|])) && Wordy(w)
    ensures Word(s) == w
  {
    if w != "" {
      assert s[0] == w[0] && s[1..][..|w| - 1] == w[1..];
      WordIs(s[1..], w[1..]);
      Sequences.HeadTail(w);
    }
  }

  lemma {:induction false} WordMeaning(s: string)
    ensures var w := Word(s); |w| <= |s| && s[..|w|] == w && (|w| < |s| ==> !IsWord(s[|w|])) && Wordy(w)
  {
    if s != "" && IsWord(s[0]) {
      WordMeaning(s[1..]);
      var w := Word(s[1..]);
      assert s[..|w| + 1] == [s[0]] + s[1..][..|w|];
    }
  }

  lemma AfterIff(s: string, kind: string, w: string)
    ensures After(s, kind).Some? && w != "" && Word(After(s, kind).value) == w <==> Declares(s, kind, w)
  {
    if After(s, kind).Some? {
      var rest := After(s, kind).value;
      WordMeaning(rest);
      assert |w| <= |rest| ==> rest[..|w|] == s[|kind|..|kind| + |w|];
      if Declares(s, kind, w) {
        WordIs(rest, w);
      }
    }
  }

  lemma KindsExclude(s: string)
    requires After(s, "export type ").Some?
    ensures After(s, "export interface ").None?
  {
    assert s[..12][7] == 't';
    if |s| >= 17 {
      assert s[..17][7] == s[7] && "export interface "[7] == 'i';
    }
  }

  lemma HereIff(s: string, w: string)
    ensures HeaderHere(s) == Some(w) <==> Declares(s, "export type ", w) || Declares(s, "export interface ", w)
  {
    AfterIff(s, "export type ", w);
    AfterIff(s, "export interface ", w);
    if After(s, "export type ").Some? {
      KindsExclude(s);
    }
  }

  /** A line declares the name of its first declaration. */
  lemma HeaderMeaning(line: string)
    ensures Header(line).None? ==> forall i, w :: !DeclaresAt(line, i, w)
    ensures Header(line).Some? ==>
              exists i :: DeclaresAt(line, i, Header(line).value)
                          && forall j, w :: 0 <= j < i ==> !DeclaresAt(line, j, w)
  {
    var i := FirstHeader(line);
    forall j, w | 0 <= j <= |line| && NothingAt(line, j) ensures !DeclaresAt(line, j, w) {
      HereIff(line[j..], w);
    }
    if Header(line).Some? {
      HereIff(line[i..], Header(line).value);
      assert DeclaresAt(line, i, Header(line).value);
      forall j, w | 0 <= j < i ensures !DeclaresAt(line, j, w) {
        assert NothingAt(line, j);
      }
    } else {
      forall j, w ensures !DeclaresAt(line, j, w) {
        assert NothingAt(line, j);
      }
    }
  }

  lemma {:induction false} FirstHeader(line: string) returns (i: nat)
    ensures i <= |line| && forall j :: 0 <= j < i ==> NothingAt(line, j)
    ensures Header(line).Some? ==> HeaderHere(line[i..]) == Header(line)
    ensures Header(line).None? ==> forall j :: NothingAt(line, j)
  {
    i := 0;
    assert line[0..] == line;
    if line == "" {
      assert HeaderHere("").None?;
    } else if HeaderHere(line).None? {
      var rest := FirstHeader(line[1..]);
      i := rest + 1;
      assert forall j :: 1 <= j <= |line| ==> line[j..] == line[1..][j - 1..];
      forall j | NothingAt(line[1..], j - 1) && j >= 1 ensures NothingAt(line, j) {
      }
    }
  }

  /** Braces are counted as often as they stand in the line. */
  lemma {:induction false} CountMeaning(line: string, c: char)
    ensures Count(line, c) == multiset(line)[c]
  {
    if line != "" {
      CountMeaning(line[1..], c);
      Sequences.HeadTail(line);
      assert multiset(line) == multiset{line[0]} + multiset(line[1..]);
    }
  }

  /** The line ends in this character, white space aside. */
  lemma EndsWithMeaning(line: string, c: char)
    requires !IsSpace(c)
    ensures EndsWith(line, c) <==> exists a, b :: Blank(b) && line == a + [c] + b
  {
    var a, b := TrimMeaning(line);
    var t := Trim(line);
    if EndsWith(line, c) {
      var init := t[..|t| - 1];
      assert t == init + [c];
      assert a + t + b == (a + init) + [c] + b;
    } else if x, y :| Blank(y) && line == x + [c] + y {
      LastVisible(a, t, b, x, c, y);
    }
  }

  /** The last character that is not white space is the same, however the line is split. */
  lemma LastVisible(a: string, t: string, b: string, x: string, c: char, y: string)
    requires Blank(a) && Blank(b) && Blank(y) && !IsSpace(c) && a + t + b == x + [c] + y
    requires t == "" || !IsSpace(t[|t| - 1])
    ensures t != "" && t[|t| - 1] == c
  {
    var s := x + [c] + y;
    assert s[|x|] == c;
    assert forall k :: 0 <= k < |y| ==> s[|x| + 1 + k] == y[k];
    assert forall k :: 0 <= k < |b| ==> s[|a| + |t| + k] == b[k];
    assert forall k :: 0 <= k < |a| ==> s[k] == a[k];
    assert t != "" ==> s[|a| + |t| - 1] == t[|t| - 1];
  }

  // ---------------------------------------------------------------- the scanner

  datatype Scan = Scan(types: map<string, string>, current: string, lines: seq<string>, depth: int, needed: bool)

  const START := Scan(map[], "", [], 0, false)

  function Step(s: Scan, line: string, neededTypes: set<string>): Scan {
    match Header(line)
    case Some(name) =>
      var types := if s.needed then s.types[s.current := Join(s.lines, '\n')] else s.types;
      if name !in neededTypes then Scan(types, name, [], s.depth, false)
      else if EndsWith(line, ';') && Braces(line) == 0 then
        Scan(types[name := Join([line], '\n')], name, [line], 0, false)
      else Scan(types, name, [line], Braces(line), true)
    case None =>
      if !s.needed then s
      else
        var lines, depth := s.lines + [line], s.depth + Braces(line);
        if depth == 0 && (EndsWith(line, ';') || EndsWith(line, '}'))
        then Scan(s.types[s.current := Join(lines, '\n')], s.current, [], depth, false)
        else s.(lines := lines, depth := depth)
  }

  function Scanned(lines: seq<string>, neededTypes: set<string>): Scan {
    if lines == [] then START else Step(Scanned(lines[..|lines| - 1], neededTypes), lines[|lines| - 1], neededTypes)
  }

  // ---------------------------------------------------------------- sorting by name

  ghost predicate TotalOrder(le: (string, string) -> bool) {
    && (forall a, b :: le(a, b) || le(b, a))
    && (forall a, b :: le(a, b) && le(b, a) ==> a == b)
    && (forall a, b, c :: le(a, b) && le(b, c) ==> le(a, c))
  }

  predicate IsLeast(n: string, names: set<string>, le: (string, string) -> bool) {
    n in names && forall m <- names :: le(n, m)
  }

  lemma {:induction false} LeastExists(names: set<string>, le: (string, string) -> bool)
    requires TotalOrder(le) && names != {}
    ensures exists n :: IsLeast(n, names, le)
  {
    var x :| x in names;
    var rest := names - {x};
    assert le(x, x);
    if rest == {} {
      assert names == {x};
      assert IsLeast(x, names, le);
    } else {
      LeastExists(rest, le);
      var n :| IsLeast(n, rest, le);
      if le(x, n) {
        assert IsLeast(x, names, le);
      } else {
        assert IsLeast(n, names, le);
      }
    }
  }

  function Least(names: set<string>, le: (string, string) -> bool): (n: string)
    requires TotalOrder(le) && names != {}
    ensures IsLeast(n, names, le)
  {
    LeastExists(names, le);
    var n :| n in names && IsLeast(n, names, le);
    n
  }

  /** The texts in the order of their names, one after the other. */
  function Output(types: map<string, string>, le: (string, string) -> bool): string
    requires TotalOrder(le)
  {
    Join(SortedTexts(types, types.Keys, le), '\n')
  }

  function SortedTexts(types: map<string, string>, names: set<string>, le: (string, string) -> bool): seq<string>
    requires TotalOrder(le) && names <= types.Keys
  {
    if names == {} then []
    else
      var n := Least(names, le);
      [types[n]] + SortedTexts(types, names - {n}, le)
  }

  method ExtractSpecificTypes(content: string, neededTypes: set<string>,
                              le: (string, string) -> bool) returns (r: string)
    requires TotalOrder(le)
    ensures r == Output(Scanned(Split(content, '\n'), neededTypes).types, le)
  {
    var lines := Split(content, '\n');
    var extractedTypes: map<string, string> := map[];
    var currentType, currentTypeLines, braceDepth, inNeededType := "", [], 0, false;
    for k := 0 to |lines|
      invariant Scan(extractedTypes, currentType, currentTypeLines, braceDepth, inNeededType)
             == Scanned(lines[..k], neededTypes)
    {
      var line := lines[k];
      assert lines[..k + 1][..k] == lines[..k];
      var typeMatch := Header(line);
      if typeMatch.Some? {
        if inNeededType {
          extractedTypes := extractedTypes[currentType := Join(currentTypeLines, '\n')];
        }
        currentType := typeMatch.value;
        if currentType in neededTypes {
          inNeededType := true;
          currentTypeLines := [line];
          braceDepth := 0;
          braceDepth := braceDepth + Count(line, '{');
          braceDepth := braceDepth - Count(line, '}');
          if EndsWith(line, ';') && braceDepth == 0 {
            extractedTypes := extractedTypes[currentType := Join(currentTypeLines, '\n')];
            inNeededType := false;
          }
        } else {
          inNeededType := false;
          currentTypeLines := [];
        }
      } else if inNeededType {
        currentTypeLines := currentTypeLines + [line];
        braceDepth := braceDepth + Count(line, '{');
        braceDepth := braceDepth - Count(line, '}');
        if braceDepth == 0 && (EndsWith(line, ';') || EndsWith(line, '}')) {
          extractedTypes := extractedTypes[currentType := Join(currentTypeLines, '\n')];
          inNeededType := false;
          currentTypeLines := [];
        }
      }
    }
    assert lines[..|lines|] == lines;
    r := Output(extractedTypes, le);
  }

  // ---------------------------------------------------------------- blocks

  /** A declaration and every line up to the next one. */
  datatype Block = Block(name: string, lines: seq<string>)

  /** The declarations of a file; the lines before the first belong to none. */
  function Blocks(lines: seq<string>): (blocks: seq<Block>)
    ensures forall i :: 0 <= i < |blocks| ==> blocks[i].lines != []
  {
    if lines == [] then []
    else
      var before, last := Blocks(lines[..|lines| - 1]), lines[|lines| - 1];
      match Header(last)
      case Some(name) => before + [Block(name, [last])]
      case None =>
        if before == [] then []
        else
          var open := before[|before| - 1];
          before[..|before| - 1] + [Block(open.name, open.lines + [last])]
  }

  function Depth(lines: seq<string>): int {
    if lines == [] then 0 else Depth(lines[..|lines| - 1]) + Braces(lines[|lines| - 1])
  }

  /** The scanner's test, at the end of these lines: a closing brace does not close the first line. */
  predicate ClosesAt(lines: seq<string>)
    requires lines != []
  {
    Depth(lines) == 0 && (EndsWith(lines[|lines| - 1], ';') || (|lines| > 1 && EndsWith(lines[|lines| - 1], '}')))
  }

  /** How many of the lines belong to the declaration. */
  function Closing(lines: seq<string>): (k: Option<nat>)
    ensures k.Some? ==> 1 <= k.value <= |lines|
  {
    if lines == [] then None
    else if Closing(lines[..|lines| - 1]).Some? then Closing(lines[..|lines| - 1])
    else if ClosesAt(lines) then Some(|lines|)
    else None
  }

  predicate Closes(b: Block) {
    Closing(b.lines).Some?
  }

  /** Braces opened and not yet closed in these lines. */
  ghost function OpenBraces(lines: seq<string>): int {
    if lines == [] then 0
    else
      var last := multiset(lines[|lines| - 1]);
      OpenBraces(lines[..|lines| - 1]) + last['{'] - last['}']
  }

  lemma {:induction false} DepthMeaning(lines: seq<string>)
    ensures Depth(lines) == OpenBraces(lines)
  {
    if lines != [] {
      DepthMeaning(lines[..|lines| - 1]);
      CountMeaning(lines[|lines| - 1], '{');
      CountMeaning(lines[|lines| - 1], '}');
    }
  }

  /** A declaration can end with line `k`: its braces are closed, and it ends in a semicolon or, later on, a brace. */
  ghost predicate CanEnd(lines: seq<string>, k: int) {
    && 1 <= k <= |lines| && OpenBraces(lines[..k]) == 0
    && (EndsWith(lines[k - 1], ';') || (k > 1 && EndsWith(lines[k - 1], '}')))
  }

  /** A declaration ends with the first line it can end with. */
  lemma {:induction false} ClosingMeaning(lines: seq<string>)
    ensures Closing(lines).None? ==> forall k :: !CanEnd(lines, k)
    ensures Closing(lines).Some? ==> CanEnd(lines, Closing(lines).value)
                                     && forall k :: k < Closing(lines).value ==> !CanEnd(lines, k)
  {
    if lines != [] {
      var n := |lines| - 1;
      ClosingMeaning(lines[..n]);
      DepthMeaning(lines);
      assert lines[..|lines|] == lines;
      forall k | 1 <= k <= n ensures CanEnd(lines, k) <==> CanEnd(lines[..n], k) {
        assert lines[..n][..k] == lines[..k];
      }
      assert CanEnd(lines, n + 1) <==> ClosesAt(lines);
      forall k | !CanEnd(lines[..n], k) && k <= n ensures !CanEnd(lines, k) {
      }
    }
  }

  /** The text of a closed declaration; an open one followed by another is taken whole. */
  function Text(b: Block): string {
    Join(if Closes(b) then b.lines[..Closing(b.lines).value] else b.lines, '\n')
  }

  /** Blocks that are followed by another declaration. */
  function Followed(blocks: seq<Block>, neededTypes: set<string>): map<string, string> {
    if blocks == [] then map[]
    else
      var m, b := Followed(blocks[..|blocks| - 1], neededTypes), blocks[|blocks| - 1];
      if b.name in neededTypes then m[b.name := Text(b)] else m
  }

  /** The last block counts only if it closes. */
  function Extracted(blocks: seq<Block>, neededTypes: set<string>): map<string, string> {
    if blocks == [] then map[]
    else
      var m, b := Followed(blocks[..|blocks| - 1], neededTypes), blocks[|blocks| - 1];
      if b.name in neededTypes && Closes(b) then m[b.name := Text(b)] else m
  }

  ghost predicate Tracks(s: Scan, blocks: seq<Block>, neededTypes: set<string>)
    requires forall i :: 0 <= i < |blocks| ==> blocks[i].lines != []
  {
    && s.types == Extracted(blocks, neededTypes)
    && (s.needed <==> blocks != [] && blocks[|blocks| - 1].name in neededTypes && !Closes(blocks[|blocks| - 1]))
    && (s.needed ==>
          var b := blocks[|blocks| - 1];
          s.current == b.name && s.lines == b.lines && s.depth == Depth(b.lines))
  }

  /** A declaration that follows settles the one before it. */
  lemma NowFollowed(s: Scan, blocks: seq<Block>, neededTypes: set<string>)
    requires (forall i :: 0 <= i < |blocks| ==> blocks[i].lines != []) && Tracks(s, blocks, neededTypes)
    ensures Followed(blocks, neededTypes)
         == if s.needed then s.types[s.current := Join(s.lines, '\n')] else s.types
  {
  }

  /** One more block at the end. */
  lemma ExtractedSnoc(blocks: seq<Block>, b: Block, neededTypes: set<string>)
    ensures Extracted(blocks + [b], neededTypes)
         == if b.name in neededTypes && Closes(b) then Followed(blocks, neededTypes)[b.name := Text(b)]
            else Followed(blocks, neededTypes)
  {
    assert (blocks + [b])[..|blocks|] == blocks;
  }

  /** A declaration on one line closes when it ends in a semicolon with its braces matched. */
  lemma OneLineBlock(b: Block, line: string)
    requires b.lines == [line]
    ensures Depth(b.lines) == Braces(line)
    ensures Closes(b) <==> EndsWith(line, ';') && Braces(line) == 0
    ensures Text(b) == Join([line], '\n')
  {
    assert [line][..0] == [] && [line][..1] == [line];
  }

  lemma HeaderTracks(s: Scan, blocks: seq<Block>, line: string, neededTypes: set<string>)
    requires (forall i :: 0 <= i < |blocks| ==> blocks[i].lines != []) && Tracks(s, blocks, neededTypes)
    requires Header(line).Some?
    ensures Tracks(Step(s, line, neededTypes), blocks + [Block(Header(line).value, [line])], neededTypes)
  {
    var b := Block(Header(line).value, [line]);
    NowFollowed(s, blocks, neededTypes);
    ExtractedSnoc(blocks, b, neededTypes);
    OneLineBlock(b, line);
  }

  lemma LineTracks(s: Scan, blocks: seq<Block>, line: string, neededTypes: set<string>)
    requires (forall i :: 0 <= i < |blocks| ==> blocks[i].lines != []) && Tracks(s, blocks, neededTypes) && blocks != []
    requires Header(line).None?
    ensures var b := blocks[|blocks| - 1];
            Tracks(Step(s, line, neededTypes), blocks[..|blocks| - 1] + [Block(b.name, b.lines + [line])], neededTypes)
  {
    var init, b := blocks[..|blocks| - 1], blocks[|blocks| - 1];
    var lines := b.lines + [line];
    var b' := Block(b.name, lines);
    assert lines[..|lines| - 1] == b.lines && lines[|lines| - 1] == line;
    assert (init + [b'])[..|init|] == init;
    if Closes(b) {
      assert Closing(lines) == Closing(b.lines);
      assert lines[..Closing(lines).value] == b.lines[..Closing(b.lines).value];
    } else {
      assert Depth(lines) == Depth(b.lines) + Braces(line);
      assert lines[..|lines|] == lines;
    }
  }

  /** The line loop computes exactly this function of the file's blocks, for every file. */
  lemma {:induction false} ScannerRefinesBlocks(lines: seq<string>, neededTypes: set<string>)
    ensures Tracks(Scanned(lines, neededTypes), Blocks(lines), neededTypes)
    ensures Scanned(lines, neededTypes).types == Extracted(Blocks(lines), neededTypes)
  {
    if lines != [] {
      var init, last := lines[..|lines| - 1], lines[|lines| - 1];
      ScannerRefinesBlocks(init, neededTypes);
      var s, blocks := Scanned(init, neededTypes), Blocks(init);
      if Header(last).Some? {
        HeaderTracks(s, blocks, last, neededTypes);
      } else if blocks != [] {
        LineTracks(s, blocks, last, neededTypes);
      }
    }
  }

  // ---------------------------------------------------------------- what the output depends on

  predicate Needed(b: Block, neededTypes: set<string>) {
    b.name in neededTypes
  }

  /** Needed blocks close by the scanner's test and have distinct names. */
  predicate WellFormed(blocks: seq<Block>, neededTypes: set<string>) {
    && (forall i :: 0 <= i < |blocks| && Needed(blocks[i], neededTypes) ==> Closes(blocks[i]))
    && (forall i, j :: 0 <= i < j < |blocks| && Needed(blocks[i], neededTypes) && Needed(blocks[j], neededTypes)
          ==> blocks[i].name != blocks[j].name)
  }

  /** A needed block that follows no other of its name is extracted with its own text. */
  lemma {:induction false} FollowedAt(blocks: seq<Block>, neededTypes: set<string>, k: nat)
    requires WellFormed(blocks, neededTypes) && k < |blocks| && Needed(blocks[k], neededTypes)
    ensures var m := Followed(blocks, neededTypes); blocks[k].name in m && m[blocks[k].name] == Text(blocks[k])
  {
    var n := |blocks| - 1;
    if k < n {
      FollowedAt(blocks[..n], neededTypes, k);
    }
  }

  lemma {:induction false} FollowedFrom(blocks: seq<Block>, neededTypes: set<string>, name: string)
    requires name in Followed(blocks, neededTypes)
    ensures exists k :: 0 <= k < |blocks| && Needed(blocks[k], neededTypes) && blocks[k].name == name
  {
    var n := |blocks| - 1;
    if !(Needed(blocks[n], neededTypes) && blocks[n].name == name) {
      FollowedFrom(blocks[..n], neededTypes, name);
      var k :| 0 <= k < n && Needed(blocks[..n][k], neededTypes) && blocks[..n][k].name == name;
      assert blocks[k] == blocks[..n][k];
    }
  }

  lemma ExtractedIsFollowed(blocks: seq<Block>, neededTypes: set<string>)
    requires WellFormed(blocks, neededTypes)
    ensures Extracted(blocks, neededTypes) == Followed(blocks, neededTypes)
  {
  }

  /** Exactly the needed blocks are extracted, each with its own text. */
  lemma ExtractedExactly(blocks: seq<Block>, neededTypes: set<string>)
    requires WellFormed(blocks, neededTypes)
    ensures var m := Extracted(blocks, neededTypes);
            && (forall b <- blocks :: Needed(b, neededTypes) ==> b.name in m && m[b.name] == Text(b))
            && (forall name <- m :: exists b <- blocks :: Needed(b, neededTypes) && b.name == name)
  {
    ExtractedIsFollowed(blocks, neededTypes);
    var m := Followed(blocks, neededTypes);
    forall b | b in blocks && Needed(b, neededTypes) ensures b.name in m && m[b.name] == Text(b) {
      var k :| 0 <= k < |blocks| && blocks[k] == b;
      FollowedAt(blocks, neededTypes, k);
    }
    forall name | name in m ensures exists b <- blocks :: Needed(b, neededTypes) && b.name == name {
      FollowedFrom(blocks, neededTypes, name);
      var k :| 0 <= k < |blocks| && Needed(blocks[k], neededTypes) && blocks[k].name == name;
      assert blocks[k] in blocks;
    }
  }

  lemma ExtractedWithin(blocks: seq<Block>, blocks': seq<Block>, neededTypes: set<string>, name: string)
    requires WellFormed(blocks, neededTypes) && WellFormed(blocks', neededTypes)
    requires forall b :: Needed(b, neededTypes) ==> (b in blocks <==> b in blocks')
    requires name in Extracted(blocks, neededTypes)
    ensures name in Extracted(blocks', neededTypes)
    ensures Extracted(blocks', neededTypes)[name] == Extracted(blocks, neededTypes)[name]
  {
    ExtractedExactly(blocks, neededTypes);
    ExtractedExactly(blocks', neededTypes);
    var b :| b in blocks && Needed(b, neededTypes) && b.name == name;
    assert b in blocks';
  }

  lemma ExtractedAlike(blocks: seq<Block>, blocks': seq<Block>, neededTypes: set<string>)
    requires WellFormed(blocks, neededTypes) && WellFormed(blocks', neededTypes)
    requires forall b :: Needed(b, neededTypes) ==> (b in blocks <==> b in blocks')
    ensures Extracted(blocks, neededTypes) == Extracted(blocks', neededTypes)
  {
    var m, m' := Extracted(blocks, neededTypes), Extracted(blocks', neededTypes);
    forall name | name in m ensures name in m' && m'[name] == m[name] {
      ExtractedWithin(blocks, blocks', neededTypes, name);
    }
    forall name | name in m' ensures name in m {
      ExtractedWithin(blocks', blocks, neededTypes, name);
    }
  }

  /**
   * The output depends only on which needed blocks there are: permuting the blocks, or adding and
   * removing blocks that are not needed, leaves it identical.
   */
  lemma OutputDependsOnNeeded(lines: seq<string>, lines': seq<string>, neededTypes: set<string>,
                              le: (string, string) -> bool)
    requires TotalOrder(le)
    requires WellFormed(Blocks(lines), neededTypes) && WellFormed(Blocks(lines'), neededTypes)
    requires forall b :: Needed(b, neededTypes) ==> (b in Blocks(lines) <==> b in Blocks(lines'))
    ensures Output(Scanned(lines, neededTypes).types, le) == Output(Scanned(lines', neededTypes).types, le)
  {
    ScannerRefinesBlocks(lines, neededTypes);
    ScannerRefinesBlocks(lines', neededTypes);
    ExtractedAlike(Blocks(lines), Blocks(lines'), neededTypes);
  }

  /** Strictly increasing in the order. */
  ghost predicate Increasing(order: seq<string>, le: (string, string) -> bool) {
    forall i, j :: 0 <= i < j < |order| ==> le(order[i], order[j]) && order[i] != order[j]
  }

  lemma IncreasingCons(n: string, rest: seq<string>, names: set<string>, le: (string, string) -> bool)
    requires IsLeast(n, names, le) && Increasing(rest, le) && forall m :: m in rest <==> m in names - {n}
    ensures Increasing([n] + rest, le) && forall m :: m in [n] + rest <==> m in names
  {
    forall j | 0 <= j < |rest| ensures le(n, rest[j]) && rest[j] != n {
      assert rest[j] in rest;
    }
  }

  predicate TextsOf(texts: seq<string>, order: seq<string>, types: map<string, string>) {
    |texts| == |order| && forall i :: 0 <= i < |order| ==> order[i] in types && texts[i] == types[order[i]]
  }

  /** The texts appear in the order of their names, each name once. */
  lemma {:induction false} SortedByName(types: map<string, string>, names: set<string>, le: (string, string) -> bool)
    returns (order: seq<string>)
    requires TotalOrder(le) && names <= types.Keys
    ensures Increasing(order, le) && (forall n :: n in order <==> n in names)
    ensures TextsOf(SortedTexts(types, names, le), order, types)
  {
    if names == {} {
      order := [];
    } else {
      var n := Least(names, le);
      var rest := SortedByName(types, names - {n}, le);
      IncreasingCons(n, rest, names, le);
      order := [n] + rest;
    }
  }

  // ---------------------------------------------------------------- open blocks

  lemma {:induction false} FollowedHas(blocks: seq<Block>, neededTypes: set<string>, k: nat)
    requires k < |blocks| && Needed(blocks[k], neededTypes)
    ensures blocks[k].name in Followed(blocks, neededTypes)
  {
    var n := |blocks| - 1;
    if k < n {
      FollowedHas(blocks[..n], neededTypes, k);
    }
  }

  /** Taken: needed, and closed or followed by another declaration. */
  predicate Taken(blocks: seq<Block>, neededTypes: set<string>, k: int) {
    0 <= k < |blocks| && Needed(blocks[k], neededTypes) && (Closes(blocks[k]) || k < |blocks| - 1)
  }

  /** For any blocks: a name is in the output exactly if some block of that name closes or is not the last. */
  lemma ExtractedIff(blocks: seq<Block>, neededTypes: set<string>, name: string)
    ensures name in Extracted(blocks, neededTypes)
       <==> exists k :: Taken(blocks, neededTypes, k) && blocks[k].name == name
  {
    if blocks != [] {
      var n := |blocks| - 1;
      if name in Followed(blocks[..n], neededTypes) {
        FollowedFrom(blocks[..n], neededTypes, name);
        var k :| 0 <= k < n && Needed(blocks[..n][k], neededTypes) && blocks[..n][k].name == name;
        assert Taken(blocks, neededTypes, k) && blocks[k].name == name;
      } else if name in Extracted(blocks, neededTypes) {
        assert Taken(blocks, neededTypes, n) && blocks[n].name == name;
      }
      if k :| Taken(blocks, neededTypes, k) && blocks[k].name == name && k < n {
        assert blocks[..n][k] == blocks[k];
        FollowedHas(blocks[..n], neededTypes, k);
      }
    }
  }

  predicate DistinctNames(blocks: seq<Block>, neededTypes: set<string>) {
    forall i, j :: 0 <= i < j < |blocks| && Needed(blocks[i], neededTypes) && Needed(blocks[j], neededTypes)
      ==> blocks[i].name != blocks[j].name
  }

  /**
   * Where it fails: a needed block that does not close is taken when another declaration follows
   * it, and dropped exactly when it is the last.
   */
  lemma OpenBlockDependsOnPosition(blocks: seq<Block>, neededTypes: set<string>, k: nat)
    requires DistinctNames(blocks, neededTypes) && k < |blocks| && Needed(blocks[k], neededTypes)
    ensures blocks[k].name in Extracted(blocks, neededTypes) <==> Closes(blocks[k]) || k < |blocks| - 1
  {
    ExtractedIff(blocks, neededTypes, blocks[k].name);
    if blocks[k].name in Extracted(blocks, neededTypes) {
      var j :| Taken(blocks, neededTypes, j) && blocks[j].name == blocks[k].name;
      assert j == k;
    } else {
      assert !Taken(blocks, neededTypes, k);
    }
  }

  /** A declaration on one line that ends in a closing brace is such a block. */
  lemma OneLineBraceIsOpen(name: string, line: string)
    requires EndsWith(line, '}')
    ensures !Closes(Block(name, [line]))
  {
    assert [line][..0] == [];
  }

  predicate AllWord(s: string) {
    forall i :: 0 <= i < |s| ==> IsWord(s[i])
  }

  lemma {:induction false} WordStops(w: string, rest: string)
    requires AllWord(w) && rest != "" && !IsWord(rest[0])
    ensures Word(w + rest) == w
  {
    if w == "" {
      assert w + rest == rest;
    } else {
      WordStops(w[1..], rest);
      assert (w + rest)[1..] == w[1..] + rest;
    }
  }

  /** The line that declares an empty interface. */
  function EmptyInterface(w: string): string {
    "export interface " + (w + " {}")
  }

  lemma AfterKeyword(rest: string)
    ensures After("export interface " + rest, "export interface ") == Some(rest)
    ensures After("export interface " + rest, "export type ").None?
  {
    var s := "export interface " + rest;
    assert s[..17] == "export interface " && s[17..] == rest;
    assert |s| >= 12 ==> s[..12][7] == 'i';
  }

  lemma EmptyInterfaceHeader(w: string)
    requires w != "" && AllWord(w)
    ensures Header(EmptyInterface(w)) == Some(w)
  {
    AfterKeyword(w + " {}");
    WordStops(w, " {}");
  }

  lemma EmptyInterfaceEnd(w: string)
    ensures EndsWith(EmptyInterface(w), '}')
  {
    var line := EmptyInterface(w);
    assert line[0] == 'e' && line[|line| - 1] == '}';
    TrimLeftFixed(line);
    TrimRightFixed(line);
  }

  lemma EmptyInterfaceAlone(w: string)
    requires w != "" && AllWord(w)
    ensures Blocks([EmptyInterface(w)]) == [Block(w, [EmptyInterface(w)])]
    ensures !Closes(Block(w, [EmptyInterface(w)]))
  {
    EmptyInterfaceHeader(w);
    EmptyInterfaceEnd(w);
    OneLineBraceIsOpen(w, EmptyInterface(w));
    assert [EmptyInterface(w)][..0] == [];
  }

  lemma BlocksSnoc(lines: seq<string>, next: string)
    requires Header(next).Some?
    ensures Blocks(lines + [next]) == Blocks(lines) + [Block(Header(next).value, [next])]
  {
    assert (lines + [next])[..|lines|] == lines;
  }

  /**
   * Such files are real: `export interface X {}` is dropped when it comes last, and taken as soon as
   * another declaration follows.
   */
  lemma EmptyInterfaceDropped(w: string, next: string)
    requires w != "" && AllWord(w) && Header(next).Some? && Header(next) != Some(w)
    ensures Scanned([EmptyInterface(w)], {w}).types == map[]
    ensures w in Scanned([EmptyInterface(w)] + [next], {w}).types
  {
    var one := [EmptyInterface(w)];
    EmptyInterfaceAlone(w);
    BlocksSnoc(one, next);
    ScannerRefinesBlocks(one, {w});
    ScannerRefinesBlocks(one + [next], {w});
    assert Blocks(one)[..0] == [];
    OpenBlockDependsOnPosition(Blocks(one + [next]), {w}, 0);
  }
}

/** Creating token locks in resumable batches: the results file is a ledger of what was created. */
module Ledger {
  import opened Wrappers
  import opened Csv
  import Sequences

  datatype Number = NaN | Number(n: int)

  /** The library's printing and parsing of amounts and of whole numbers. */
  datatype Codec = Codec(
    formatEther: nat -> string,
    parseEther: string -> Option<nat>,
    printNumber: Number -> string,
    parseInt: string -> Number)

  /** A configuration entry; the last three fields are empty until it is populated and deployed. */
  datatype Entry = Entry(
    beneficiary: string,
    managedAmount: nat,
    startTime: string,
    endTime: string,
    periods: string,
    revocable: Number,
    releaseStartTime: string,
    vestingCliffTime: string,
    contractAddress: string,
    salt: string,
    txHash: string)

  /** Free of field and line separators. */
  predicate Bare(s: string) {
    ',' !in s && '\n' !in s
  }

  ghost predicate Inverse(c: Codec) {
    && (forall n: nat :: c.parseEther(c.formatEther(n)) == Some(n) && Bare(c.formatEther(n)))
    && (forall n: Number :: c.parseInt(c.printNumber(n)) == n && Bare(c.printNumber(n)))
  }

  // ---------------------------------------------------------------- one line

  function Fields(c: Codec, e: Entry): seq<string> {
    [e.beneficiary, c.formatEther(e.managedAmount), e.startTime, e.endTime, e.periods, c.printNumber(e.revocable),
     e.releaseStartTime, e.vestingCliffTime, e.contractAddress, e.salt, e.txHash]
  }

  function DeployEntryToCsv(c: Codec, e: Entry): string {
    Join(Fields(c, e), ',')
  }

  function At(fields: seq<string>, i: nat): string {
    if i < |fields| then fields[i] else ""
  }

  /** Parsing throws only on the amount. */
  function ParseLine(c: Codec, line: string): Option<Entry> {
    var f := Split(line, ',');
    match c.parseEther(At(f, 1))
    case None => None
    case Some(amount) =>
      Some(Entry(f[0], amount, At(f, 2), At(f, 3), At(f, 4), c.parseInt(At(f, 5)), At(f, 6), At(f, 7),
                 At(f, 8), At(f, 9), At(f, 10)))
  }

  predicate BareEntry(e: Entry) {
    && Bare(e.beneficiary) && Bare(e.startTime) && Bare(e.endTime) && Bare(e.periods)
    && Bare(e.releaseStartTime) && Bare(e.vestingCliffTime)
    && Bare(e.contractAddress) && Bare(e.salt) && Bare(e.txHash)
  }

  /** What comes back: white space around the line is lost, so the outer fields are trimmed on their outer side. */
  function Reloaded(e: Entry): Entry {
    e.(beneficiary := TrimLeft(e.beneficiary), txHash := TrimRight(e.txHash))
  }

  function Inner(c: Codec, e: Entry): seq<string> {
    [c.formatEther(e.managedAmount), e.startTime, e.endTime, e.periods, c.printNumber(e.revocable),
     e.releaseStartTime, e.vestingCliffTime, e.contractAddress, e.salt]
  }

  /** Joining with one part in front and one behind. */
  lemma JoinEnds(a: string, parts: seq<string>, z: string, sep: char)
    requires parts != []
    ensures Join([a] + parts + [z], sep) == a + ([sep] + Join(parts, sep) + [sep]) + z
  {
    JoinSnoc(parts, z, sep);
    assert ([a] + parts + [z])[1..] == parts + [z];
    assert [a] + parts + [z] == [a] + (parts + [z]);
  }

  lemma {:induction false} JoinSnoc(parts: seq<string>, z: string, sep: char)
    requires parts != []
    ensures Join(parts + [z], sep) == Join(parts, sep) + [sep] + z
  {
    var all := parts + [z];
    if |parts| == 1 {
      assert all[1..] == [z];
    } else {
      JoinSnoc(parts[1..], z, sep);
      assert all[1..] == parts[1..] + [z];
    }
  }

  lemma LineTrimmed(c: Codec, e: Entry)
    ensures Trim(DeployEntryToCsv(c, e)) == DeployEntryToCsv(c, Reloaded(e))
    ensures Trim(DeployEntryToCsv(c, e)) != ""
  {
    var inner := [','] + Join(Inner(c, e), ',') + [','];
    var r := Reloaded(e);
    assert Fields(c, e) == [e.beneficiary] + Inner(c, e) + [e.txHash];
    assert Fields(c, r) == [r.beneficiary] + Inner(c, e) + [r.txHash];
    JoinEnds(e.beneficiary, Inner(c, e), e.txHash, ',');
    JoinEnds(r.beneficiary, Inner(c, e), r.txHash, ',');
    TrimOuter(e.beneficiary, inner, e.txHash);
    assert |inner| >= 2;
  }

  lemma LineParses(c: Codec, e: Entry)
    requires Inverse(c) && BareEntry(e)
    ensures ParseLine(c, DeployEntryToCsv(c, e)) == Some(e)
  {
    var f := Fields(c, e);
    forall i | 0 <= i < |f| ensures ',' !in f[i] {
      assert Bare(c.formatEther(e.managedAmount)) && Bare(c.printNumber(e.revocable));
    }
    SplitJoin(f, ',');
  }

  /**
   * Saving an entry without separators in its fields and loading its line gives the entry back
   * exactly when its first field has no white space in front and its last none behind.
   */
  lemma LineRoundTrip(c: Codec, e: Entry)
    requires Inverse(c) && BareEntry(e)
    ensures ParseLine(c, Trim(DeployEntryToCsv(c, e))) == Some(Reloaded(e))
    ensures ParseLine(c, Trim(DeployEntryToCsv(c, e))) == Some(e)
       <==> (e.beneficiary == "" || !IsSpace(e.beneficiary[0]))
            && (e.txHash == "" || !IsSpace(e.txHash[|e.txHash| - 1]))
  {
    LineTrimmed(c, e);
    TrimLeftChars(e.beneficiary);
    assert Bare(TrimLeft(e.beneficiary)) && Bare(TrimRight(e.txHash));
    LineParses(c, Reloaded(e));
    TrimLeftFixed(e.beneficiary);
    TrimRightFixed(e.txHash);
  }

  // ---------------------------------------------------------------- the file

  function KeptLine(line: string): seq<string> {
    if Trim(line) != "" then [Trim(line)] else []
  }

  /** Trimmed lines, without the blank ones. */
  function Kept(lines: seq<string>): seq<string> {
    FlatMap(lines, KeptLine)
  }

  function ParseAll(c: Codec, lines: seq<string>): Option<seq<Entry>> {
    MapAll(lines, line => ParseLine(c, line))
  }

  function LinesOf(data: string): seq<string> {
    Kept(Split(data, '\n'))
  }

  function LoadResultData(c: Codec, data: string): Option<seq<Entry>> {
    ParseAll(c, LinesOf(data))
  }

  /** A configuration line stops before the deployment fields. */
  function ParseConfigLine(c: Codec, line: string): Option<Entry> {
    match ParseLine(c, line)
    case None => None
    case Some(e) => Some(e.(contractAddress := "", salt := "", txHash := ""))
  }

  /** The configuration has a title line. */
  function LoadDeployData(c: Codec, data: string): Option<seq<Entry>> {
    MapAll(Kept(Split(data, '\n')[1..]), line => ParseConfigLine(c, line))
  }

  // ---------------------------------------------------------------- columns

  /** Eight columns of a configuration line. */
  function ConfigText(beneficiary: string, amount: string, startTime: string, endTime: string, periods: string,
                      revocable: string, releaseStartTime: string, vestingCliffTime: string): string {
    beneficiary + "," + (amount + "," + (startTime + "," + (endTime + "," + (periods + "," + (revocable + ","
      + (releaseStartTime + "," + vestingCliffTime))))))
  }

  lemma SplitStep(first: string, rest: string, parts: seq<string>)
    requires ',' !in first && Split(rest, ',') == parts
    ensures Split(first + "," + rest, ',') == [first] + parts
  {
    SplitConcat(first, rest, ',');
    SplitWhole(first, ',');
    assert first + [','] + rest == first + "," + rest;
  }

  lemma EightColumns(beneficiary: string, amount: string, startTime: string, endTime: string, periods: string,
                     revocable: string, releaseStartTime: string, vestingCliffTime: string)
    requires ',' !in beneficiary && ',' !in amount && ',' !in startTime && ',' !in endTime && ',' !in periods
    requires ',' !in revocable && ',' !in releaseStartTime && ',' !in vestingCliffTime
    ensures Split(ConfigText(beneficiary, amount, startTime, endTime, periods, revocable, releaseStartTime,
                             vestingCliffTime), ',')
         == [beneficiary, amount, startTime, endTime, periods, revocable, releaseStartTime, vestingCliffTime]
  {
    var rest := periods + "," + (revocable + "," + (releaseStartTime + "," + vestingCliffTime));
    FourColumns(periods, revocable, releaseStartTime, vestingCliffTime, [vestingCliffTime]);
    SplitWhole(vestingCliffTime, ',');
    SplitStep(endTime, rest, Split(rest, ','));
    FourColumns(beneficiary, amount, startTime, endTime + "," + rest, Split(endTime + "," + rest, ','));
  }

  lemma FourColumns(a: string, b: string, c: string, rest: string, parts: seq<string>)
    requires ',' !in a && ',' !in b && ',' !in c && (Split(rest, ',') == parts || (',' !in rest && parts == [rest]))
    ensures Split(a + "," + (b + "," + (c + "," + rest)), ',') == [a, b, c] + parts
  {
    if ',' !in rest {
      SplitWhole(rest, ',');
    }
    SplitStep(c, rest, parts);
    SplitStep(b, c + "," + rest, [c] + parts);
    SplitStep(a, b + "," + (c + "," + rest), [b] + ([c] + parts));
    assert [a] + ([b] + ([c] + parts)) == [a, b, c] + parts;
  }

  /** Which column of a configuration line is which field. */
  lemma ConfigColumns(c: Codec, beneficiary: string, amount: string, startTime: string, endTime: string,
                      periods: string, revocable: string, releaseStartTime: string, vestingCliffTime: string)
    requires ',' !in beneficiary && ',' !in amount && ',' !in startTime && ',' !in endTime && ',' !in periods
    requires ',' !in revocable && ',' !in releaseStartTime && ',' !in vestingCliffTime
    requires c.parseEther(amount).Some?
    ensures ParseConfigLine(c, ConfigText(beneficiary, amount, startTime, endTime, periods, revocable,
                                          releaseStartTime, vestingCliffTime))
         == Some(Entry(beneficiary, c.parseEther(amount).value, startTime, endTime, periods, c.parseInt(revocable),
                       releaseStartTime, vestingCliffTime, "", "", ""))
  {
    EightColumns(beneficiary, amount, startTime, endTime, periods, revocable, releaseStartTime, vestingCliffTime);
    ParsedColumns(c, ConfigText(beneficiary, amount, startTime, endTime, periods, revocable, releaseStartTime,
                                vestingCliffTime));
  }

  lemma ParsedColumns(c: Codec, line: string)
    requires |Split(line, ',')| == 8 && c.parseEther(Split(line, ',')[1]).Some?
    ensures var f := Split(line, ',');
            ParseConfigLine(c, line) == Some(Entry(f[0], c.parseEther(f[1]).value, f[2], f[3], f[4], c.parseInt(f[5]),
                                                   f[6], f[7], "", "", ""))
  {
  }

  /** Further columns of a configuration line are not read. */
  lemma NothingDeployedYet(c: Codec, line: string)
    ensures var r := ParseConfigLine(c, line);
            && (r.Some? ==> r.value.contractAddress == "" && r.value.salt == "" && r.value.txHash == "")
            && (r.Some? <==> ParseLine(c, line).Some?)
  {
  }

  lemma JoinStep(first: string, parts: seq<string>)
    requires parts != []
    ensures Join([first] + parts, ',') == first + "," + Join(parts, ',')
  {
    assert ([first] + parts)[1..] == parts;
  }

  /** The text of a saved record: the columns of the configuration, and three more. */
  lemma SavedColumns(c: Codec, e: Entry)
    ensures DeployEntryToCsv(c, e)
         == e.beneficiary + "," + (c.formatEther(e.managedAmount) + "," + (e.startTime + "," + (e.endTime + ","
            + (e.periods + "," + (c.printNumber(e.revocable) + "," + (e.releaseStartTime + ","
            + (e.vestingCliffTime + "," + (e.contractAddress + "," + (e.salt + "," + e.txHash)))))))))
  {
    var f := [e.beneficiary, c.formatEther(e.managedAmount), e.startTime, e.endTime, e.periods,
              c.printNumber(e.revocable), e.releaseStartTime, e.vestingCliffTime, e.contractAddress, e.salt, e.txHash];
    assert Fields(c, e) == f;
    assert Join(f[10..], ',') == e.txHash;
    JoinTail(f, 9);
    JoinTail(f, 8);
    JoinTail(f, 7);
    JoinTail(f, 6);
    JoinTail(f, 5);
    JoinTail(f, 4);
    JoinTail(f, 3);
    JoinTail(f, 2);
    JoinTail(f, 1);
    JoinTail(f, 0);
    assert f[0..] == f;
  }

  lemma JoinTail(f: seq<string>, k: nat)
    requires k + 1 < |f|
    ensures Join(f[k..], ',') == f[k] + "," + Join(f[k + 1..], ',')
  {
    assert f[k..] == [f[k]] + f[k + 1..];
    JoinStep(f[k], f[k + 1..]);
  }

  /** The first line is a title. */
  lemma ConfigTitle(c: Codec, title: string)
    requires '\n' !in title
    ensures LoadDeployData(c, title) == Some([])
  {
    SplitWhole(title, '\n');
    assert Split(title, '\n')[1..] == [];
  }

  /** Every further line that is not blank adds the entry it holds, or makes the loading throw. */
  lemma ConfigGrows(c: Codec, data: string, line: string)
    requires '\n' !in line && LoadDeployData(c, data).Some?
    ensures var r := LoadDeployData(c, data + "\n" + line);
            if Trim(line) == "" then r == LoadDeployData(c, data)
            else if ParseConfigLine(c, Trim(line)).None? then r.None?
            else r == Some(LoadDeployData(c, data).value + [ParseConfigLine(c, Trim(line)).value])
  {
    var f := l => ParseConfigLine(c, l);
    var before := Split(data, '\n')[1..];
    SplitConcat(data, line, '\n');
    SplitWhole(line, '\n');
    assert data + ['\n'] + line == data + "\n" + line;
    assert Split(data + "\n" + line, '\n')[1..] == before + [line];
    FlatMapConcat(before, [line], KeptLine);
    KeptSingle(line);
    if Trim(line) == "" {
      assert Kept(before) + [] == Kept(before);
    } else if ParseConfigLine(c, Trim(line)).Some? {
      MapAllSnoc(Kept(before), Trim(line), f);
    } else {
      MapAllThrows(Kept(before), Trim(line), f);
    }
  }

  lemma {:induction false} MapAllThrows<T>(lines: seq<string>, last: string, f: string -> Option<T>)
    requires f(last).None?
    ensures MapAll(lines + [last], f).None?
  {
    if lines != [] {
      MapAllThrows(lines[1..], last, f);
      assert (lines + [last])[1..] == lines[1..] + [last];
    }
  }

  /** Nothing but white space after the last line break: empty, say, or as the ledger leaves it. */
  predicate Terminated(data: string) {
    Trim(Tail(data, '\n')) == ""
  }

  lemma KeptSingle(line: string)
    ensures Kept([line]) == KeptLine(line)
  {
    assert [line] == [line] + [];
    FlatMapCons(line, [], KeptLine);
  }

  /** The lines on both sides of a line break. */
  lemma LinesConcat(a: string, b: string)
    ensures LinesOf(a + ['\n'] + b) == LinesOf(a) + LinesOf(b)
  {
    SplitConcat(a, b, '\n');
    FlatMapConcat(Split(a, '\n'), Split(b, '\n'), KeptLine);
  }

  lemma LinesSingle(line: string)
    requires '\n' !in line
    ensures LinesOf(line) == KeptLine(line)
  {
    SplitWhole(line, '\n');
    KeptSingle(line);
  }

  lemma LinesEnd(a: string)
    ensures LinesOf(a + "\n") == LinesOf(a)
  {
    LinesConcat(a, "");
    LinesSingle("");
    assert a + ['\n'] + "" == a + "\n";
  }

  /** What is loaded before the last line, and the last line itself. */
  lemma LinesTail(data: string) returns (before: seq<string>)
    ensures LinesOf(data) == before + KeptLine(Tail(data, '\n'))
    ensures forall line :: '\n' !in line ==> LinesOf(data + line) == before + KeptLine(Tail(data, '\n') + line)
  {
    var tail := Tail(data, '\n');
    var body := TailSplit(data, '\n');
    if |Split(data, '\n')| == 1 {
      before := [];
      LinesSingle(tail);
      forall line | '\n' !in line ensures LinesOf(data + line) == before + KeptLine(tail + line) {
        LinesSingle(tail + line);
      }
    } else {
      before := LinesOf(body);
      LinesConcat(body, tail);
      LinesSingle(tail);
      forall line | '\n' !in line ensures LinesOf(data + line) == before + KeptLine(tail + line) {
        LinesConcat(body, tail + line);
        LinesSingle(tail + line);
        Sequences.Associates(body + ['\n'], tail, line);
      }
    }
  }

  lemma AppendedTail(data: string, line: string)
    ensures Terminated(data + line + "\n")
  {
    var s := data + line;
    SplitConcat(s, "", '\n');
    assert s + ['\n'] + "" == s + "\n";
  }

  /** Appending a line adds it to what is loaded when the file was terminated, and adds no line at all otherwise. */
  lemma LinesAppend(data: string, line: string)
    requires '\n' !in line && Trim(line) != ""
    ensures Terminated(data) ==> LinesOf(data + line + "\n") == LinesOf(data) + [Trim(line)]
    ensures !Terminated(data) ==> |LinesOf(data + line + "\n")| <= |LinesOf(data)|
    ensures Terminated(data + line + "\n")
  {
    var tail := Tail(data, '\n');
    var before := LinesTail(data);
    LinesEnd(data + line);
    AppendedTail(data, line);
    if Terminated(data) {
      BlankIff(tail);
      TrimBlank(tail, line);
      Sequences.Unit(before);
    }
  }

  /** The ledger's fields survive a round trip. */
  predicate Clean(e: Entry) {
    BareEntry(e) && Reloaded(e) == e
  }

  lemma {:induction false} JoinChars(parts: seq<string>, x: char)
    requires (forall i :: 0 <= i < |parts| ==> x !in parts[i]) && x != ','
    ensures x !in Join(parts, ',')
  {
    if |parts| > 1 {
      JoinChars(parts[1..], x);
    }
  }

  lemma EntryLine(c: Codec, e: Entry)
    requires Inverse(c) && Clean(e)
    ensures var line := DeployEntryToCsv(c, e);
            '\n' !in line && Trim(line) != "" && ParseLine(c, Trim(line)) == Some(e)
  {
    LineTrimmed(c, e);
    LineParses(c, e);
    assert Bare(c.formatEther(e.managedAmount)) && Bare(c.printNumber(e.revocable));
    JoinChars(Fields(c, e), '\n');
  }

  /**
   * Saving a clean entry appends exactly it to what is loaded if and only if the file was terminated.
   * Otherwise the record merges into the line that was left open.
   */
  lemma SaveAppends(c: Codec, data: string, e: Entry)
    requires Inverse(c) && LoadResultData(c, data).Some? && Clean(e)
    ensures var data' := data + DeployEntryToCsv(c, e) + "\n";
            && Terminated(data')
            && (LoadResultData(c, data') == Some(LoadResultData(c, data).value + [e]) <==> Terminated(data))
  {
    var line := DeployEntryToCsv(c, e);
    EntryLine(c, e);
    LinesAppend(data, line);
    var f := l => ParseLine(c, l);
    if Terminated(data) {
      MapAllSnoc(LinesOf(data), Trim(line), f);
    } else {
      MapAllAt(LinesOf(data), f);
      if LoadResultData(c, data + line + "\n").Some? {
        MapAllAt(LinesOf(data + line + "\n"), f);
      }
    }
  }

  class ResultFile {
    var contents: string

    constructor (contents: string)
      ensures this.contents == contents
    {
      this.contents := contents;
    }

    method SaveDeployResult(c: Codec, e: Entry)
      modifies this
      ensures contents == old(contents) + DeployEntryToCsv(c, e) + "\n"
    {
      contents := contents + DeployEntryToCsv(c, e) + "\n";
    }
  }
}

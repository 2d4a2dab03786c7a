/** Runs of the token-lock task: each submits what no earlier run recorded, and records what succeeded. */
module Batches {
  import opened Wrappers
  import opened Csv
  import opened Ledger
  import Sequences

  /** What a successful creation returns. */
  datatype Receipt = Receipt(contractAddress: string, txHash: string)

  function Min(a: nat, b: nat): nat { if a < b then a else b }

  /** The salt is a hash over the entry's configuration, its owner and the manager. */
  function Populated(entries: seq<Entry>, salt: Entry -> string): (r: seq<Entry>)
    ensures |r| == |entries|
  {
    seq(|entries|, i requires 0 <= i < |entries| => entries[i].(salt := salt(entries[i])))
  }

  predicate Recorded(deployed: seq<Entry>, salt: string) {
    exists i :: 0 <= i < |deployed| && deployed[i].salt == salt
  }

  /** The entries whose salt is not recorded, in order. */
  function Remaining(entries: seq<Entry>, deployed: seq<Entry>): seq<Entry> {
    if entries == [] then []
    else
      var last := entries[|entries| - 1];
      Remaining(entries[..|entries| - 1], deployed) + if Recorded(deployed, last.salt) then [] else [last]
  }

  function Saved(e: Entry, r: Receipt): Entry {
    e.(contractAddress := r.contractAddress, txHash := r.txHash)
  }

  /** The file after one entry was tried: a line more if its transaction came through. */
  function Tried(c: Codec, data: string, e: Entry, outcome: Option<Receipt>): string {
    if outcome.None? then data else data + DeployEntryToCsv(c, Saved(e, outcome.value)) + "\n"
  }

  /** The file after the first `n` entries were tried. */
  function Written(c: Codec, data: string, entries: seq<Entry>, outcomes: seq<Option<Receipt>>, n: nat): string
    requires n <= |entries| && n <= |outcomes|
  {
    if n == 0 then data else Tried(c, Written(c, data, entries, outcomes, n - 1), entries[n - 1], outcomes[n - 1])
  }

  function SavedEntries(entries: seq<Entry>, outcomes: seq<Option<Receipt>>, n: nat): seq<Entry>
    requires n <= |entries| && n <= |outcomes|
  {
    if n == 0 then []
    else
      SavedEntries(entries, outcomes, n - 1) + SavedOf(entries[n - 1], outcomes[n - 1])
  }

  /** One run: the salts it submits and the file it leaves. A run may be cut off after any entry. */
  datatype RunResult = RunResult(ok: bool, submitted: seq<string>, data: string)

  function Submitted(entries: seq<Entry>, n: nat): (r: seq<string>)
    requires n <= |entries|
    ensures |r| == n
  {
    seq(n, i requires 0 <= i < n => entries[i].salt)
  }

  function Run(c: Codec, data: string, config: Option<seq<Entry>>, salt: Entry -> string,
               outcomes: seq<Option<Receipt>>): RunResult {
    var deployed := LoadResultData(c, data);
    if config.None? || deployed.None? then RunResult(false, [], data)
    else
      var remaining := Remaining(Populated(config.value, salt), deployed.value);
      var n := Min(|remaining|, |outcomes|);
      RunResult(true, Submitted(remaining, n), Written(c, data, remaining, outcomes, n))
  }

  class TokenLockTask {
    const codec: Codec
    const results: ResultFile

    constructor (codec: Codec, results: ResultFile)
      ensures this.codec == codec && this.results == results
    {
      this.codec, this.results := codec, results;
    }

    method PopulateEntries(entries: seq<Entry>, salt: Entry -> string) returns (populated: seq<Entry>)
      ensures populated == Populated(entries, salt)
    {
      populated := [];
      for k := 0 to |entries|
        invariant populated == Populated(entries, salt)[..k]
      {
        populated := populated + [entries[k].(salt := salt(entries[k]))];
      }
    }

    method RemoveDeployed(entries: seq<Entry>, deployed: seq<Entry>) returns (remaining: seq<Entry>)
      ensures remaining == Remaining(entries, deployed)
    {
      remaining := [];
      for k := 0 to |entries|
        invariant remaining == Remaining(entries[..k], deployed)
      {
        var found := false;
        for j := 0 to |deployed|
          invariant found <==> exists i :: 0 <= i < j && deployed[i].salt == entries[k].salt
        {
          found := found || deployed[j].salt == entries[k].salt;
        }
        assert entries[..k + 1][..k] == entries[..k];
        if !found {
          remaining := remaining + [entries[k]];
        }
      }
      assert entries[..|entries|] == entries;
    }

    method CreateTokenLocks(deployData: string, salt: Entry -> string, outcomes: seq<Option<Receipt>>)
      returns (ok: bool, submitted: seq<string>)
      modifies results
      ensures RunResult(ok, submitted, results.contents)
           == Run(codec, old(results.contents), LoadDeployData(codec, deployData), salt, outcomes)
    {
      var config := LoadDeployData(codec, deployData);
      var deployed := LoadResultData(codec, results.contents);
      if config.None? || deployed.None? {
        return false, [];
      }
      var entries := PopulateEntries(config.value, salt);
      entries := RemoveDeployed(entries, deployed.value);
      ok := true;
      submitted := CreateEach(entries, outcomes);
    }

    /** The creation queue: an entry is submitted, and saved if its transaction came through. */
    method CreateEach(entries: seq<Entry>, outcomes: seq<Option<Receipt>>) returns (submitted: seq<string>)
      modifies results
      ensures submitted == Submitted(entries, Min(|entries|, |outcomes|))
      ensures results.contents
           == Written(codec, old(results.contents), entries, outcomes, Min(|entries|, |outcomes|))
    {
      submitted := [];
      for k := 0 to Min(|entries|, |outcomes|)
        invariant submitted == Submitted(entries, k)
        invariant results.contents == Written(codec, old(results.contents), entries, outcomes, k)
      {
        submitted := submitted + [entries[k].salt];
        if outcomes[k].Some? {
          results.SaveDeployResult(codec, Saved(entries[k], outcomes[k].value));
        }
      }
    }
  }

  // ---------------------------------------------------------------- what is loaded is clean

  /** A configuration entry as loaded: no separators, and no white space in front. */
  predicate CleanConfig(e: Entry) {
    && Bare(e.beneficiary) && Bare(e.startTime) && Bare(e.endTime) && Bare(e.periods)
    && Bare(e.releaseStartTime) && Bare(e.vestingCliffTime)
    && (e.beneficiary == "" || !IsSpace(e.beneficiary[0]))
  }

  lemma LineIsClean(c: Codec, line: string)
    requires '\n' !in line && (line == "" || !IsSpace(line[0])) && ParseConfigLine(c, line).Some?
    ensures CleanConfig(ParseConfigLine(c, line).value)
  {
    SplitChars(line, ',');
    var f := Split(line, ',');
    assert forall i :: 0 <= i < |f| ==> Bare(f[i]);
    assert f[0] != "" ==> f[0][0] == line[0];
  }

  lemma {:induction false} KeptLineAt(lines: seq<string>, k: nat)
    requires (forall i :: 0 <= i < |lines| ==> '\n' !in lines[i]) && k < |Kept(lines)|
    ensures var l := Kept(lines)[k]; '\n' !in l && (l == "" || !IsSpace(l[0]))
  {
    TrimChars(lines[0]);
    var head := KeptLine(lines[0]);
    if k >= |head| {
      KeptLineAt(lines[1..], k - |head|);
    }
  }

  /** Whatever the configuration file holds, the entries read from it are clean. */
  lemma ConfigIsClean(c: Codec, data: string)
    requires LoadDeployData(c, data).Some?
    ensures forall i :: 0 <= i < |LoadDeployData(c, data).value| ==> CleanConfig(LoadDeployData(c, data).value[i])
  {
    var lines := Split(data, '\n')[1..];
    SplitChars(data, '\n');
    assert forall i :: 0 <= i < |lines| ==> lines[i] == Split(data, '\n')[i + 1];
    var f := line => ParseConfigLine(c, line);
    MapAllAt(Kept(lines), f);
    forall i | 0 <= i < |LoadDeployData(c, data).value| ensures CleanConfig(LoadDeployData(c, data).value[i]) {
      KeptLineAt(lines, i);
      LineIsClean(c, Kept(lines)[i]);
    }
  }

  // ---------------------------------------------------------------- one run

  /** Receipts and salts are hexadecimal text: no separators and no white space behind. */
  predicate GoodReceipt(r: Receipt) {
    Bare(r.contractAddress) && Bare(r.txHash) && (r.txHash == "" || !IsSpace(r.txHash[|r.txHash| - 1]))
  }

  predicate GoodOutcomes(outcomes: seq<Option<Receipt>>) {
    forall i :: 0 <= i < |outcomes| && outcomes[i].Some? ==> GoodReceipt(outcomes[i].value)
  }

  predicate GoodEntries(entries: seq<Entry>) {
    forall i :: 0 <= i < |entries| ==> CleanConfig(entries[i]) && Bare(entries[i].salt)
  }

  /** A file every line of which can be loaded. */
  predicate GoodFile(c: Codec, data: string) {
    Terminated(data) && LoadResultData(c, data).Some?
  }

  lemma SavedClean(e: Entry, r: Receipt)
    requires CleanConfig(e) && Bare(e.salt) && GoodReceipt(r)
    ensures Clean(Saved(e, r))
  {
    TrimLeftFixed(e.beneficiary);
    TrimRightFixed(r.txHash);
  }

  lemma EntryAppends(c: Codec, data: string, e: Entry, r: Receipt)
    requires Inverse(c) && GoodFile(c, data) && CleanConfig(e) && Bare(e.salt) && GoodReceipt(r)
    ensures var data' := data + DeployEntryToCsv(c, Saved(e, r)) + "\n";
            GoodFile(c, data') && LoadResultData(c, data').value == LoadResultData(c, data).value + [Saved(e, r)]
  {
    SavedClean(e, r);
    SaveAppends(c, data, Saved(e, r));
  }

  function SavedOf(e: Entry, outcome: Option<Receipt>): seq<Entry> {
    if outcome.None? then [] else [Saved(e, outcome.value)]
  }

  ghost predicate Holds(c: Codec, data: string, recorded: seq<Entry>) {
    Terminated(data) && LoadResultData(c, data) == Some(recorded)
  }

  lemma TriedAppends(c: Codec, data: string, e: Entry, outcome: Option<Receipt>, recorded: seq<Entry>)
    requires Inverse(c) && Holds(c, data, recorded) && CleanConfig(e) && Bare(e.salt)
    requires outcome.Some? ==> GoodReceipt(outcome.value)
    ensures Holds(c, Tried(c, data, e, outcome), recorded + SavedOf(e, outcome))
  {
    if outcome.None? {
      Sequences.Unit(recorded);
    } else {
      EntryAppends(c, data, e, outcome.value);
    }
  }

  /** Whatever relation of file and records each tried entry keeps, the whole run keeps. */
  lemma {:induction false} EachTried(c: Codec, data: string, entries: seq<Entry>, outcomes: seq<Option<Receipt>>,
                                     n: nat, recorded: seq<Entry>, P: (string, seq<Entry>) -> bool)
    requires n <= |entries| && n <= |outcomes| && P(data, recorded)
    requires forall k, text, r :: 0 <= k < n && P(text, r) ==>
               P(Tried(c, text, entries[k], outcomes[k]), r + SavedOf(entries[k], outcomes[k]))
    ensures P(Written(c, data, entries, outcomes, n), recorded + SavedEntries(entries, outcomes, n))
  {
    if n == 0 {
      Sequences.Unit(recorded);
    } else {
      var saved := SavedEntries(entries, outcomes, n - 1);
      EachTried(c, data, entries, outcomes, n - 1, recorded, P);
      Sequences.Associates(recorded, saved, SavedOf(entries[n - 1], outcomes[n - 1]));
    }
  }

  /** Loading after a run gives the entries recorded before, followed by those saved, in order. */
  lemma RunAppends(c: Codec, data: string, entries: seq<Entry>, outcomes: seq<Option<Receipt>>, n: nat,
                   recorded: seq<Entry>)
    requires Inverse(c) && Holds(c, data, recorded) && GoodEntries(entries) && GoodOutcomes(outcomes)
    requires n <= |entries| && n <= |outcomes|
    ensures Holds(c, Written(c, data, entries, outcomes, n), recorded + SavedEntries(entries, outcomes, n))
  {
    var P := (text, r) => Holds(c, text, r);
    forall k, text, r | 0 <= k < n && P(text, r)
      ensures P(Tried(c, text, entries[k], outcomes[k]), r + SavedOf(entries[k], outcomes[k]))
    {
      TriedAppends(c, text, entries[k], outcomes[k], r);
    }
    EachTried(c, data, entries, outcomes, n, recorded, P);
  }

  /** What remains is exactly the configured entries without a recorded salt. */
  lemma {:induction false} RemainingExactly(entries: seq<Entry>, deployed: seq<Entry>)
    ensures forall e :: e in Remaining(entries, deployed) <==> e in entries && !Recorded(deployed, e.salt)
  {
    if entries != [] {
      var init, last := entries[..|entries| - 1], entries[|entries| - 1];
      RemainingExactly(init, deployed);
      assert entries == init + [last];
    }
  }

  lemma RemainingGood(entries: seq<Entry>, deployed: seq<Entry>)
    requires GoodEntries(entries)
    ensures GoodEntries(Remaining(entries, deployed))
  {
    RemainingExactly(entries, deployed);
    var r := Remaining(entries, deployed);
    forall i | 0 <= i < |r| ensures CleanConfig(r[i]) && Bare(r[i].salt) {
      assert r[i] in r;
    }
  }

  // ---------------------------------------------------------------- any number of runs

  /** What one run is given: its configuration file, the salts (owner and token may differ) and what happens. */
  datatype Input = Input(text: string, salt: Entry -> string, outcomes: seq<Option<Receipt>>)

  function RunOn(c: Codec, data: string, i: Input): RunResult {
    Run(c, data, LoadDeployData(c, i.text), i.salt, i.outcomes)
  }

  /** The file after each of a sequence of runs. */
  function AfterRuns(c: Codec, data: string, runs: seq<Input>): string {
    if runs == [] then data else RunOn(c, AfterRuns(c, data, runs[..|runs| - 1]), runs[|runs| - 1]).data
  }

  ghost predicate GoodInput(i: Input) {
    (forall e :: Bare(i.salt(e))) && GoodOutcomes(i.outcomes)
  }

  ghost predicate GoodRuns(runs: seq<Input>) {
    forall k :: 0 <= k < |runs| ==> GoodInput(runs[k])
  }

  lemma OneRun(c: Codec, data: string, i: Input)
    requires Inverse(c) && GoodFile(c, data) && GoodInput(i)
    ensures var r := RunOn(c, data, i);
            && GoodFile(c, r.data)
            && LoadResultData(c, data).value <= LoadResultData(c, r.data).value
            && (forall s <- r.submitted :: !Recorded(LoadResultData(c, data).value, s))
  {
    var config := LoadDeployData(c, i.text);
    if config.Some? {
      PopulatedGood(c, i);
      var deployed := LoadResultData(c, data).value;
      var remaining := Remaining(Populated(config.value, i.salt), deployed);
      RemainingGood(Populated(config.value, i.salt), deployed);
      var n := Min(|remaining|, |i.outcomes|);
      RunAppends(c, data, remaining, i.outcomes, n, deployed);
      SubmittedUnrecorded(Populated(config.value, i.salt), deployed, n);
    }
  }

  /** Only salts without a record are submitted. */
  lemma SubmittedUnrecorded(entries: seq<Entry>, deployed: seq<Entry>, n: nat)
    requires n <= |Remaining(entries, deployed)|
    ensures forall s <- Submitted(Remaining(entries, deployed), n) :: !Recorded(deployed, s)
  {
    RemainingExactly(entries, deployed);
    var remaining := Remaining(entries, deployed);
    forall s | s in Submitted(remaining, n) ensures !Recorded(deployed, s) {
      var k :| 0 <= k < n && remaining[k].salt == s;
      assert remaining[k] in remaining;
    }
  }

  lemma PopulatedGood(c: Codec, i: Input)
    requires GoodInput(i) && LoadDeployData(c, i.text).Some?
    ensures GoodEntries(Populated(LoadDeployData(c, i.text).value, i.salt))
  {
    var config := LoadDeployData(c, i.text).value;
    ConfigIsClean(c, i.text);
    var entries := Populated(config, i.salt);
    forall k | 0 <= k < |entries| ensures CleanConfig(entries[k]) && Bare(entries[k].salt) {
      assert CleanConfig(config[k]) && Bare(i.salt(config[k]));
    }
  }

  lemma {:induction false} RunsStayGood(c: Codec, data: string, runs: seq<Input>)
    requires Inverse(c) && GoodFile(c, data) && GoodRuns(runs)
    ensures GoodFile(c, AfterRuns(c, data, runs))
  {
    if runs != [] {
      var n := |runs| - 1;
      RunsStayGood(c, data, runs[..n]);
      OneRun(c, AfterRuns(c, data, runs[..n]), runs[n]);
    }
  }

  /** What is recorded after `k` runs. */
  ghost function RecordedAfter(c: Codec, data: string, runs: seq<Input>, k: nat): seq<Entry>
    requires k <= |runs|
  {
    LoadResultData(c, AfterRuns(c, data, runs[..k])).GetOr([])
  }

  lemma RunSnoc(c: Codec, data: string, runs: seq<Input>, k: nat)
    requires k < |runs|
    ensures AfterRuns(c, data, runs[..k + 1]) == RunOn(c, AfterRuns(c, data, runs[..k]), runs[k]).data
  {
    assert runs[..k + 1][..k] == runs[..k];
  }

  lemma OneRunGrows(c: Codec, data: string, runs: seq<Input>, k: nat)
    requires Inverse(c) && GoodFile(c, data) && GoodRuns(runs) && k < |runs|
    ensures RecordedAfter(c, data, runs, k) <= RecordedAfter(c, data, runs, k + 1)
  {
    RunsStayGood(c, data, runs[..k]);
    OneRun(c, AfterRuns(c, data, runs[..k]), runs[k]);
    RunSnoc(c, data, runs, k);
  }

  lemma {:induction false} PrefixChain<T>(f: nat -> seq<T>, j: nat, k: nat)
    requires j <= k && forall i: nat :: j <= i < k ==> f(i) <= f(i + 1)
    ensures f(j) <= f(k)
    decreases k
  {
    if j < k {
      PrefixChain(f, j, k - 1);
      assert f(k - 1) <= f(k - 1 + 1);
    }
  }

  lemma RecordsOnlyGrow(c: Codec, data: string, runs: seq<Input>, j: nat, k: nat)
    requires Inverse(c) && GoodFile(c, data) && GoodRuns(runs) && j <= k <= |runs|
    ensures RecordedAfter(c, data, runs, j) <= RecordedAfter(c, data, runs, k)
  {
    RecordedChain(c, data, runs, j, k, (i: nat) => if i <= |runs| then RecordedAfter(c, data, runs, i) else []);
  }

  lemma RecordedChain(c: Codec, data: string, runs: seq<Input>, j: nat, k: nat, f: nat -> seq<Entry>)
    requires Inverse(c) && GoodFile(c, data) && GoodRuns(runs) && j <= k <= |runs|
    requires forall i: nat :: i <= |runs| ==> f(i) == RecordedAfter(c, data, runs, i)
    ensures f(j) <= f(k)
  {
    forall i: nat | j <= i < k ensures f(i) <= f(i + 1) {
      OneRunGrows(c, data, runs, i);
    }
    PrefixChain(f, j, k);
  }

  lemma RecordedGrows(a: seq<Entry>, b: seq<Entry>, salt: string)
    requires a <= b
    ensures Recorded(a, salt) ==> Recorded(b, salt)
  {
    if i :| 0 <= i < |a| && a[i].salt == salt {
      assert b[i] == a[i];
    }
  }

  /**
   * Over any sequence of runs, each with its own configuration file and with arbitrary failures or
   * cut-offs: the file always loads, the records only grow, no salt recorded after run `j` is
   * submitted by a later run, and what remains is exactly the configured entries without a recorded
   * salt.
   */
  lemma ResumableCreation(c: Codec, data: string, runs: seq<Input>, j: nat, k: nat)
    requires Inverse(c) && GoodFile(c, data) && GoodRuns(runs) && j <= k < |runs|
    ensures var before := AfterRuns(c, data, runs[..k]);
            var r := RunOn(c, before, runs[k]);
            && GoodFile(c, before) && r.data == AfterRuns(c, data, runs[..k + 1])
            && RecordedAfter(c, data, runs, j) <= RecordedAfter(c, data, runs, k + 1)
            && (forall s <- r.submitted :: !Recorded(RecordedAfter(c, data, runs, j), s))
            && (LoadDeployData(c, runs[k].text).Some? ==>
                  var entries := Populated(LoadDeployData(c, runs[k].text).value, runs[k].salt);
                  var recorded := RecordedAfter(c, data, runs, k);
                  forall e :: e in Remaining(entries, recorded) <==> e in entries && !Recorded(recorded, e.salt))
  {
    RunsStayGood(c, data, runs[..k]);
    var before := AfterRuns(c, data, runs[..k]);
    OneRun(c, before, runs[k]);
    RunSnoc(c, data, runs, k);
    RecordsOnlyGrow(c, data, runs, j, k);
    RecordsOnlyGrow(c, data, runs, j, k + 1);
    forall s | s in RunOn(c, before, runs[k]).submitted ensures !Recorded(RecordedAfter(c, data, runs, j), s) {
      RecordedGrows(RecordedAfter(c, data, runs, j), RecordedAfter(c, data, runs, k), s);
    }
    if LoadDeployData(c, runs[k].text).Some? {
      RemainingExactly(Populated(LoadDeployData(c, runs[k].text).value, runs[k].salt), RecordedAfter(c, data, runs, k));
    }
  }

  predicate DistinctSalts(entries: seq<Entry>) {
    forall i, j :: 0 <= i < j < |entries| ==> entries[i].salt != entries[j].salt
  }

  lemma {:induction false} RemainingDistinct(entries: seq<Entry>, deployed: seq<Entry>)
    requires DistinctSalts(entries)
    ensures DistinctSalts(Remaining(entries, deployed))
  {
    if entries != [] {
      var n := |entries| - 1;
      RemainingDistinct(entries[..n], deployed);
      RemainingExactly(entries[..n], deployed);
      var r := Remaining(entries[..n], deployed);
      forall i | 0 <= i < |r| ensures r[i].salt != entries[n].salt {
        assert r[i] in r;
        var k :| 0 <= k < n && entries[..n][k] == r[i];
        assert entries[k].salt != entries[n].salt;
      }
    }
  }

  /** A run records each of its entries at most once, and none that was recorded before. */
  lemma {:induction false} SavedOnce(entries: seq<Entry>, outcomes: seq<Option<Receipt>>, n: nat, recorded: seq<Entry>)
    requires n <= |entries| && n <= |outcomes| && DistinctSalts(entries) && DistinctSalts(recorded)
    requires forall i :: 0 <= i < |entries| ==> !Recorded(recorded, entries[i].salt)
    ensures DistinctSalts(recorded + SavedEntries(entries, outcomes, n))
    ensures forall k :: n <= k < |entries| ==> !Recorded(recorded + SavedEntries(entries, outcomes, n), entries[k].salt)
  {
    if n == 0 {
      assert recorded + [] == recorded;
    } else {
      SavedOnce(entries, outcomes, n - 1, recorded);
      var before, last := recorded + SavedEntries(entries, outcomes, n - 1), SavedOf(entries[n - 1], outcomes[n - 1]);
      Sequences.Associates(recorded, SavedEntries(entries, outcomes, n - 1), last);
      assert !Recorded(before, entries[n - 1].salt);
    }
  }

  /** No run configures the same salt twice. */
  predicate DistinctConfig(c: Codec, i: Input) {
    LoadDeployData(c, i.text).Some? ==> DistinctSalts(Populated(LoadDeployData(c, i.text).value, i.salt))
  }

  /** With distinct salts in each configuration no token lock is ever recorded as created twice. */
  lemma {:induction false} NoLockCreatedTwice(c: Codec, data: string, runs: seq<Input>)
    requires Inverse(c) && GoodFile(c, data) && GoodRuns(runs)
    requires (forall k :: 0 <= k < |runs| ==> DistinctConfig(c, runs[k]))
             && DistinctSalts(LoadResultData(c, data).value)
    ensures GoodFile(c, AfterRuns(c, data, runs)) && DistinctSalts(LoadResultData(c, AfterRuns(c, data, runs)).value)
  {
    if runs != [] {
      var n := |runs| - 1;
      NoLockCreatedTwice(c, data, runs[..n]);
      RunRecordsOnce(c, AfterRuns(c, data, runs[..n]), runs[n]);
    }
  }

  /**
   * A run in which every transaction comes through creates what was left to create: each configured
   * entry whose salt no earlier run recorded is submitted, and the file then holds it with that salt
   * and with the contract and transaction of its own creation.
   */
  lemma EveryEntryIsCreated(c: Codec, data: string, i: Input, e: Entry)
    requires Inverse(c) && GoodFile(c, data) && GoodInput(i) && LoadDeployData(c, i.text).Some?
    requires forall k :: 0 <= k < |i.outcomes| ==> i.outcomes[k].Some?
    requires |i.outcomes| >= |LoadDeployData(c, i.text).value|
    requires e in LoadDeployData(c, i.text).value
    requires forall x <- LoadResultData(c, data).value :: x.salt != i.salt(e)
    ensures var r := RunOn(c, data, i);
            var earlier := LoadResultData(c, data).value;
            && r.ok && LoadResultData(c, r.data).Some?
            && var later := LoadResultData(c, r.data).value;
               && |later| == |earlier| + |r.submitted| <= |earlier| + |i.outcomes| && later[..|earlier|] == earlier
               && exists j :: 0 <= j < |r.submitted| && r.submitted[j] == i.salt(e)
                              && later[|earlier| + j]
                                 == e.(salt := i.salt(e), contractAddress := i.outcomes[j].value.contractAddress,
                                       txHash := i.outcomes[j].value.txHash)
  {
    var config, earlier := LoadDeployData(c, i.text).value, LoadResultData(c, data).value;
    var entries := Populated(config, i.salt);
    var remaining := Remaining(entries, earlier);
    CompleteRun(c, data, i);
    var m :| 0 <= m < |config| && config[m] == e;
    var j := NotRecordedRemains(entries, earlier, m);
    SavedAll(remaining, i.outcomes, |remaining|);
    SecondPart(earlier, SavedEntries(remaining, i.outcomes, |remaining|), j);
    assert Submitted(remaining, |remaining|)[j] == i.salt(e);
  }

  lemma SecondPart<T>(a: seq<T>, b: seq<T>, j: nat)
    requires j < |b|
    ensures (a + b)[|a| + j] == b[j] && (a + b)[..|a|] == a
  {
  }

  lemma NotRecordedRemains(entries: seq<Entry>, deployed: seq<Entry>, m: nat) returns (j: nat)
    requires m < |entries| && forall x <- deployed :: x.salt != entries[m].salt
    ensures j < |Remaining(entries, deployed)| && Remaining(entries, deployed)[j] == entries[m]
  {
    RemainingExactly(entries, deployed);
    assert entries[m] in entries && !Recorded(deployed, entries[m].salt);
    j :| 0 <= j < |Remaining(entries, deployed)| && Remaining(entries, deployed)[j] == entries[m];
  }

  /** With enough outcomes, a run tries all that remains, and what it saves is added to what was recorded. */
  lemma CompleteRun(c: Codec, data: string, i: Input)
    requires Inverse(c) && GoodFile(c, data) && GoodInput(i) && LoadDeployData(c, i.text).Some?
    requires |i.outcomes| >= |LoadDeployData(c, i.text).value|
    ensures var earlier := LoadResultData(c, data).value;
            var remaining := Remaining(Populated(LoadDeployData(c, i.text).value, i.salt), earlier);
            var r := RunOn(c, data, i);
            && |remaining| <= |i.outcomes| && r.ok && r.submitted == Submitted(remaining, |remaining|)
            && LoadResultData(c, r.data) == Some(earlier + SavedEntries(remaining, i.outcomes, |remaining|))
  {
    var earlier := LoadResultData(c, data).value;
    var entries := Populated(LoadDeployData(c, i.text).value, i.salt);
    PopulatedGood(c, i);
    RemainingGood(entries, earlier);
    RemainingFewer(entries, earlier);
    var remaining := Remaining(entries, earlier);
    RunAppends(c, data, remaining, i.outcomes, |remaining|, earlier);
  }

  lemma {:induction false} RemainingFewer(entries: seq<Entry>, deployed: seq<Entry>)
    ensures |Remaining(entries, deployed)| <= |entries|
  {
    if entries != [] {
      RemainingFewer(entries[..|entries| - 1], deployed);
    }
  }

  lemma {:induction false} SavedAll(entries: seq<Entry>, outcomes: seq<Option<Receipt>>, n: nat)
    requires n <= |entries| && n <= |outcomes| && forall k :: 0 <= k < n ==> outcomes[k].Some?
    ensures |SavedEntries(entries, outcomes, n)| == n
    ensures forall k :: 0 <= k < n ==>
              SavedEntries(entries, outcomes, n)[k]
              == entries[k].(contractAddress := outcomes[k].value.contractAddress, txHash := outcomes[k].value.txHash)
  {
    if n > 0 {
      SavedAll(entries, outcomes, n - 1);
    }
  }

  lemma RunRecordsOnce(c: Codec, data: string, i: Input)
    requires Inverse(c) && GoodFile(c, data) && GoodInput(i) && DistinctConfig(c, i)
    requires DistinctSalts(LoadResultData(c, data).value)
    ensures var r := RunOn(c, data, i); GoodFile(c, r.data) && DistinctSalts(LoadResultData(c, r.data).value)
  {
    if LoadDeployData(c, i.text).Some? {
      var entries, deployed := Populated(LoadDeployData(c, i.text).value, i.salt), LoadResultData(c, data).value;
      PopulatedGood(c, i);
      var remaining := Remaining(entries, deployed);
      RemainingGood(entries, deployed);
      RemainingDistinct(entries, deployed);
      RemainingExactly(entries, deployed);
      forall k | 0 <= k < |remaining| ensures !Recorded(deployed, remaining[k].salt) {
        assert remaining[k] in remaining;
      }
      var n := Min(|remaining|, |i.outcomes|);
      RunAppends(c, data, remaining, i.outcomes, n, deployed);
      SavedOnce(remaining, i.outcomes, n, deployed);
    }
  }

  // ---------------------------------------------------------------- the transaction batch

  datatype BatchTx = Approve(amount: nat) | Deposit(amount: nat) | Create(entry: Entry)

  function GetTotalAmount(entries: seq<Entry>): nat {
    if entries == [] then 0 else GetTotalAmount(entries[..|entries| - 1]) + entries[|entries| - 1].managedAmount
  }

  /** Funds are added only when the manager holds too little. */
  function Funding(total: nat, balance: nat): seq<BatchTx> {
    if balance < total then [Approve(total - balance), Deposit(total - balance)] else []
  }

  function Creations(entries: seq<Entry>): (r: seq<BatchTx>)
    ensures |r| == |entries|
  {
    seq(|entries|, i requires 0 <= i < |entries| => Create(entries[i]))
  }

  method BuildBatch(entries: seq<Entry>, balance: nat) returns (batch: seq<BatchTx>)
    ensures batch == Funding(GetTotalAmount(entries), balance) + Creations(entries)
  {
    var total := 0;
    for k := 0 to |entries|
      invariant total == GetTotalAmount(entries[..k])
    {
      assert entries[..k + 1][..k] == entries[..k];
      total := total + entries[k].managedAmount;
    }
    assert entries[..|entries|] == entries;
    batch := [];
    if balance < total {
      batch := [Approve(total - balance), Deposit(total - balance)];
    }
    ghost var funding := batch;
    for k := 0 to |entries|
      invariant batch == funding + Creations(entries)[..k]
    {
      batch := batch + [Create(entries[k])];
    }
  }

  /** The manager's balance and what it may draw from the sender. */
  datatype Funds = Funds(balance: nat, allowance: nat)

  /** Nothing when a transaction fails: a deposit beyond the allowance, a creation beyond the balance. */
  function Executed(f: Funds, txs: seq<BatchTx>): Option<Funds> {
    if txs == [] then Some(f)
    else
      match Executed(f, txs[..|txs| - 1])
      case None => None
      case Some(g) =>
        match txs[|txs| - 1]
        case Approve(amount) => Some(g.(allowance := amount))
        case Deposit(amount) =>
          if amount <= g.allowance then Some(Funds(g.balance + amount, g.allowance - amount)) else None
        case Create(e) =>
          if e.managedAmount <= g.balance then Some(g.(balance := g.balance - e.managedAmount)) else None
  }

  lemma {:induction false} CreationsSpend(f: Funds, before: seq<BatchTx>, entries: seq<Entry>, n: nat, g: Funds)
    requires Executed(f, before) == Some(g) && n <= |entries| && GetTotalAmount(entries[..n]) <= g.balance
    ensures Executed(f, before + Creations(entries)[..n])
         == Some(g.(balance := g.balance - GetTotalAmount(entries[..n])))
  {
    var txs := before + Creations(entries)[..n];
    if n == 0 {
      assert txs == before;
    } else {
      assert entries[..n][..n - 1] == entries[..n - 1];
      CreationsSpend(f, before, entries, n - 1, g);
      assert txs[..|txs| - 1] == before + Creations(entries)[..n - 1];
    }
  }

  /**
   * The batch never runs out of funds: every transaction succeeds, and what is left is exactly what
   * the manager held beyond the total.
   */
  lemma BatchIsFunded(entries: seq<Entry>, balance: nat)
    ensures var total := GetTotalAmount(entries);
            Executed(Funds(balance, 0), Funding(total, balance) + Creations(entries))
            == Some(Funds(if balance < total then 0 else balance - total, 0))
  {
    var total := GetTotalAmount(entries);
    var f, funding := Funds(balance, 0), Funding(total, balance);
    var n := |entries|;
    if balance < total {
      assert funding[..1] == [Approve(total - balance)] && funding[..1][..0] == [];
      assert Executed(f, funding[..1]) == Some(Funds(balance, total - balance));
    }
    assert entries[..n] == entries && Creations(entries)[..n] == Creations(entries);
    CreationsSpend(f, funding, entries, n, Funds(if balance < total then total else balance, 0));
  }
}

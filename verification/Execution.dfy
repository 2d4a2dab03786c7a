/** Executing pending bundles: which are selected, what is sent, and what is left behind. */
module Execution {
  import opened Wrappers
  import opened Bundles
  import Chain
  import Sequences

  // ---------------------------------------------------------------- selection

  datatype Options = Options(name: string, all: bool, allowMissing: bool)

  datatype Selection =
    | Execute(files: seq<string>)
    | NoOp
    | NameAndAll
    | NameMissing(target: string)
    | MultipleWithoutFlag(files: seq<string>)

  /**
   * One pending bundle runs by default; more than one only by name or when multiplicity is
   * acknowledged.
   */
  function SelectBundles(available: seq<string>, o: Options): (r: Selection)
    ensures r.Execute? ==> r.files != [] && forall f <- r.files :: f in available
    ensures r.Execute? && |r.files| > 1 ==> o.all && r.files == available
    ensures r.Execute? && o.name != "" ==> r.files == [o.name + ".json"] && !o.all
    ensures o.name == "" ==> (r == Execute(available) <==> available != [] && (|available| == 1 || o.all))
    ensures o.name != "" ==> (r == Execute([o.name + ".json"]) <==> o.name + ".json" in available && !o.all)
    ensures r.NoOp? <==> !(o.name != "" && o.all)
                         && if o.name != "" then o.name + ".json" !in available && o.allowMissing else available == []
    ensures r.NameAndAll? <==> o.name != "" && o.all
    ensures r.NameMissing? <==> o.name != "" && !o.all && !o.allowMissing && o.name + ".json" !in available
    ensures r.NameMissing? ==> r.target == o.name + ".json"
    ensures r.MultipleWithoutFlag? <==> o.name == "" && !o.all && |available| > 1
    ensures r.MultipleWithoutFlag? ==> r.files == available
  {
    if o.name != "" && o.all then NameAndAll
    else if o.name != "" then
      if FileName(o.name) in available then Execute([FileName(o.name)])
      else if o.allowMissing then NoOp else NameMissing(FileName(o.name))
    else if available == [] then NoOp
    else if |available| == 1 || o.all then Execute(available)
    else MultipleWithoutFlag(available)
  }

  /** The files a command is about: the named one, else all it finds. */
  function SelectedFiles(available: seq<string>, o: Options): seq<string> {
    if o.name != "" then [o.name + ".json"] else available
  }

  /**
   * A command that ought to send: it is about pending files, each listed once, and about a single
   * one, or a named one alone, or all of them on request.
   */
  predicate Sends(available: seq<string>, o: Options, d: Dir) {
    && available != [] && Distinct(available) && (forall f <- available :: f in d.top)
    && if o.name != "" then o.name + ".json" in available && !o.all else |available| == 1 || o.all
  }

  // ---------------------------------------------------------------- sending

  /**
   * A failure point: something throws while `file` is being executed, after `sent` of its
   * transactions went out. With all of them out it is the final receipt or the move that failed.
   */
  datatype Stop = Stop(file: string, sent: nat)

  datatype Progress = Progress(dir: Dir, sent: seq<Tx>, ok: bool)

  function FileTxs(top: Files, file: string): seq<Tx> {
    if file in top then top[file].transactions else []
  }

  function Prefix<T>(s: seq<T>, n: nat): seq<T> {
    if n <= |s| then s[..n] else s
  }

  function AfterFile(p: Progress, file: string, stop: Option<Stop>): Progress {
    if !p.ok then p
    else if file !in p.dir.top then p.(ok := false)
    else if stop.Some? && stop.value.file == file then
      Progress(p.dir, p.sent + Prefix(p.dir.top[file].transactions, stop.value.sent), false)
    else
      Progress(p.dir.(top := p.dir.top - {file}, executed := p.dir.executed[file := p.dir.top[file]]),
               p.sent + p.dir.top[file].transactions, true)
  }

  /** The files one after the other; nothing more happens once one of them fails. */
  function Run(d: Dir, files: seq<string>, stop: Option<Stop>): Progress {
    if files == [] then Progress(d, [], true)
    else AfterFile(Run(d, files[..|files| - 1], stop), files[|files| - 1], stop)
  }

  /** The chain after the transactions were sent in order. */
  function Applied(c: Chain.State, txs: seq<Tx>): Chain.State {
    if txs == [] then c
    else
      var tx := txs[|txs| - 1];
      Chain.Executed(Applied(c, txs[..|txs| - 1]), tx.to, tx.data)
  }

  class Executor {
    const files: TxDirectory
    var chain: Chain.State
    var sent: seq<Tx>

    constructor (files: TxDirectory, chain: Chain.State)
      ensures this.files == files && this.chain == chain && sent == []
    {
      this.files, this.chain, this.sent := files, chain, [];
    }

    /** Sends the first `count` transactions of a batch. */
    method SendAll(txs: seq<Tx>, count: nat)
      modifies this
      ensures sent == old(sent) + Prefix(txs, count)
      ensures chain == Applied(old(chain), Prefix(txs, count))
    {
      var n := if count <= |txs| then count else |txs|;
      for i := 0 to n
        invariant sent == old(sent) + txs[..i]
        invariant chain == Applied(old(chain), txs[..i])
      {
        assert txs[..i + 1][..i] == txs[..i];
        chain := Chain.Executed(chain, txs[i].to, txs[i].data);
        sent := sent + [txs[i]];
      }
      assert txs[..n] == Prefix(txs, count);
    }

    /** One bundle is sent and then moved to `executed/`. */
    method ExecuteFile(file: string, stop: Option<Stop>) returns (ok: bool)
      modifies this, files
      ensures var p := AfterFile(Progress(old(files.dir), [], true), file, stop);
              && ok == p.ok && files.dir == p.dir
              && sent == old(sent) + p.sent && chain == Applied(old(chain), p.sent)
    {
      if file !in files.dir.top {
        return false;
      }
      var txs := files.dir.top[file].transactions;
      if stop.Some? && stop.value.file == file {
        SendAll(txs, stop.value.sent);
        assert [] + Prefix(txs, stop.value.sent) == Prefix(txs, stop.value.sent);
        return false;
      }
      SendAll(txs, |txs|);
      assert Prefix(txs, |txs|) == txs && [] + txs == txs;
      files.dir := files.dir.(top := files.dir.top - {file},
                              executed := files.dir.executed[file := files.dir.top[file]]);
      ok := true;
    }

    /** A caller with authority sends a builder's batch at once; only the audit copy in `executed/` is written. */
    method ExecuteTxBatchDirect(builder: TxBuilder) returns (count: nat)
      requires builder.Valid() && (builder as object) != this && (builder as object) != files
      modifies this, files
      ensures count == |builder.transactions| && sent == old(sent) + builder.transactions
      ensures chain == Applied(old(chain), builder.transactions)
      ensures files.dir == if count == 0 then old(files.dir)
                           else old(files.dir).(executed := old(files.dir).executed[
                                  builder.outputFile := Saved(builder.Contents(), builder.gatheredFrom)])
    {
      count := |builder.transactions|;
      SendAll(builder.transactions, count);
      assert Prefix(builder.transactions, count) == builder.transactions;
      if count > 0 {
        var b := builder.Save();
        files.dir := files.dir.(executed := files.dir.executed[builder.outputFile := b]);
      }
    }

    /** The first failure is rethrown; the bundles after it are not touched. */
    method ExecuteFiles(names: seq<string>, stop: Option<Stop>) returns (ok: bool, count: nat)
      modifies this, files
      ensures var p := Run(old(files.dir), names, stop);
              && ok == p.ok && files.dir == p.dir
              && sent == old(sent) + p.sent && chain == Applied(old(chain), p.sent)
      ensures ok ==> count == |names|
    {
      ok, count := true, 0;
      var k := 0;
      ghost var d, c, before := files.dir, chain, sent;
      ghost var p := Progress(d, [], true);
      while ok && k < |names|
        invariant k <= |names| && (ok ==> count == k)
        invariant p == Run(d, names[..k], stop) && ok == p.ok && p.dir == files.dir
        invariant sent == before + p.sent && chain == Applied(c, p.sent)
      {
        RunSnoc(d, names, stop, k);
        StepFrom(c, p, names[k], stop);
        Sequences.Associates(before, p.sent, AfterFile(Progress(p.dir, [], true), names[k], stop).sent);
        p := AfterFile(p, names[k], stop);
        ok := ExecuteFile(names[k], stop);
        k := k + 1;
        if ok {
          count := count + 1;
        }
      }
      RunSettled(d, names, stop, k);
    }

    /**
     * The whole command. `keyed` says that the governor is a plain account whose key is at hand;
     * a multisig governor, or a missing key, executes nothing here.
     */
    method ExecuteGovernanceTxs(available: seq<string>, o: Options, keyed: bool, stop: Option<Stop>)
      returns (ok: bool, count: nat)
      modifies this, files
      ensures var s := SelectBundles(available, o);
              if s.Execute? && keyed
              then var p := Run(old(files.dir), s.files, stop);
                   && ok == p.ok && files.dir == p.dir
                   && sent == old(sent) + p.sent && chain == Applied(old(chain), p.sent)
              else && ok == (s.Execute? || s.NoOp?) && files.dir == old(files.dir)
                   && sent == old(sent) && chain == old(chain) && count == 0
      ensures keyed && stop.None? && Sends(available, o, old(files.dir)) ==>
                && ok && count == |SelectedFiles(available, o)|
                && sent == old(sent) + AllTxs(old(files.dir).top, SelectedFiles(available, o))
                && files.dir.top == Remaining(old(files.dir).top, SelectedFiles(available, o))
                && files.dir.executed
                   == old(files.dir).executed + Restricted(old(files.dir).top, SelectedFiles(available, o))
    {
      if stop.None? && Sends(available, o, files.dir) {
        RunCompletes(files.dir, SelectedFiles(available, o), None);
      }
      var s := SelectBundles(available, o);
      if s.Execute? && keyed {
        ok, count := ExecuteFiles(s.files, stop);
      } else {
        ok, count := s.Execute? || s.NoOp?, 0;
      }
    }
  }

  lemma {:induction false} AppliedSplit(c: Chain.State, a: seq<Tx>, b: seq<Tx>)
    ensures Applied(c, a + b) == Applied(Applied(c, a), b)
  {
    if b == [] {
      assert a + b == a;
    } else {
      assert (a + b)[..|a + b| - 1] == a + b[..|b| - 1];
      AppliedSplit(c, a, b[..|b| - 1]);
    }
  }

  lemma StepFrom(c: Chain.State, p: Progress, file: string, stop: Option<Stop>)
    requires p.ok
    ensures var step, p' := AfterFile(Progress(p.dir, [], true), file, stop), AfterFile(p, file, stop);
            && p'.dir == step.dir && p'.ok == step.ok && p'.sent == p.sent + step.sent
            && Applied(c, p'.sent) == Applied(Applied(c, p.sent), step.sent)
  {
    var step := AfterFile(Progress(p.dir, [], true), file, stop);
    assert AfterFile(p, file, stop).sent == p.sent + step.sent;
    AppliedSplit(c, p.sent, step.sent);
  }

  lemma RunSnoc(d: Dir, files: seq<string>, stop: Option<Stop>, k: nat)
    requires k < |files|
    ensures Run(d, files[..k + 1], stop) == AfterFile(Run(d, files[..k], stop), files[k], stop)
  {
    assert files[..k + 1][..k] == files[..k];
  }

  lemma RunSettled(d: Dir, files: seq<string>, stop: Option<Stop>, k: nat)
    requires k <= |files| && (k < |files| ==> !Run(d, files[..k], stop).ok)
    ensures Run(d, files, stop) == Run(d, files[..k], stop)
  {
    if k == |files| {
      assert files[..k] == files;
    } else {
      FailureSticks(d, files, stop, k);
    }
  }

  lemma {:induction false} FailureSticks(d: Dir, files: seq<string>, stop: Option<Stop>, k: nat)
    requires k <= |files| && !Run(d, files[..k], stop).ok
    ensures Run(d, files, stop) == Run(d, files[..k], stop)
    decreases |files| - k
  {
    if k == |files| {
      assert files[..k] == files;
    } else {
      assert files[..k + 1][..k] == files[..k];
      FailureSticks(d, files, stop, k + 1);
    }
  }

  // ---------------------------------------------------------------- what a run leaves behind

  function AllTxs(top: Files, files: seq<string>): seq<Tx> {
    if files == [] then [] else AllTxs(top, files[..|files| - 1]) + FileTxs(top, files[|files| - 1])
  }

  predicate Distinct<T(==)>(s: seq<T>) {
    forall i, j :: 0 <= i < j < |s| ==> s[i] != s[j]
  }

  function Restricted(top: Files, files: seq<string>): Files {
    map f | f in top && f in files :: top[f]
  }

  function Remaining(top: Files, files: seq<string>): Files {
    map f | f in top && f !in files :: top[f]
  }

  /** The directory and log once these files, and no others, completed. */
  ghost predicate Completed(d: Dir, done: seq<string>, p: Progress) {
    && p.sent == AllTxs(d.top, done)
    && p.dir.top == Remaining(d.top, done)
    && p.dir.executed == d.executed + Restricted(d.top, done)
    && p.dir.incorporated == d.incorporated
  }

  lemma Snoc(top: Files, files: seq<string>)
    requires files != []
    ensures var init, last := files[..|files| - 1], files[|files| - 1];
            && Remaining(top, files) == Remaining(top, init) - {last}
            && (last in top ==> Restricted(top, files) == Restricted(top, init)[last := top[last]])
            && (forall f :: f in files <==> f in init || f == last)
  {
    var init, last := files[..|files| - 1], files[|files| - 1];
    assert init + [last] == files;
  }

  lemma FileCompletes(d: Dir, files: seq<string>, stop: Option<Stop>, p: Progress)
    requires files != []
    requires var init, last := files[..|files| - 1], files[|files| - 1];
             && Completed(d, init, p) && p.ok && last !in init && last in d.top
             && (stop.None? || stop.value.file != last)
    ensures var p' := AfterFile(p, files[|files| - 1], stop); p'.ok && Completed(d, files, p')
  {
    var init, last := files[..|files| - 1], files[|files| - 1];
    Snoc(d.top, files);
    assert d.executed + Restricted(d.top, init)[last := d.top[last]]
        == (d.executed + Restricted(d.top, init))[last := d.top[last]];
  }

  lemma {:induction false} RunCompletes(d: Dir, files: seq<string>, stop: Option<Stop>)
    requires Distinct(files) && forall f <- files :: f in d.top && (stop.None? || stop.value.file != f)
    ensures Run(d, files, stop).ok && Completed(d, files, Run(d, files, stop))
  {
    if files == [] {
      assert Remaining(d.top, files) == d.top && d.executed + Restricted(d.top, files) == d.executed;
    } else {
      var init, last := files[..|files| - 1], files[|files| - 1];
      assert last in files && forall f <- init :: f in files;
      RunCompletes(d, init, stop);
      FileCompletes(d, files, stop, Run(d, init, stop));
    }
  }

  /**
   * For any failure point: what was sent is the completed bundles in order, which are exactly the
   * ones now in `executed/`, followed by a prefix of the failing bundle, which stays pending with
   * all its transactions.
   */
  lemma ExecutionLog(d: Dir, files: seq<string>, stop: Option<Stop>) returns (k: nat)
    requires Distinct(files) && forall f <- files :: f in d.top
    ensures k <= |files|
    ensures var p := Run(d, files, stop);
            if k == |files| then p.ok && Completed(d, files[..k], p)
            else && !p.ok && stop.Some? && stop.value.file == files[k]
                 && p.sent == AllTxs(d.top, files[..k]) + Prefix(d.top[files[k]].transactions, stop.value.sent)
                 && Completed(d, files[..k], p.(sent := AllTxs(d.top, files[..k])))
                 && files[k] in p.dir.top && p.dir.top[files[k]] == d.top[files[k]]
  {
    if stop.Some? && stop.value.file in files {
      k :| 0 <= k < |files| && files[k] == stop.value.file;
      StoppedRun(d, files, stop.value, k);
    } else {
      k := |files|;
      assert files[..k] == files;
      RunCompletes(d, files, stop);
    }
  }

  lemma StoppedRun(d: Dir, files: seq<string>, stop: Stop, k: nat)
    requires Distinct(files) && (forall f <- files :: f in d.top) && k < |files| && stop.file == files[k]
    ensures var p := Run(d, files, Some(stop));
            && !p.ok && p.sent == AllTxs(d.top, files[..k]) + Prefix(d.top[files[k]].transactions, stop.sent)
            && Completed(d, files[..k], p.(sent := AllTxs(d.top, files[..k])))
            && files[k] in p.dir.top && p.dir.top[files[k]] == d.top[files[k]]
  {
    var done := files[..k];
    assert files[k] in files && files[k] !in done;
    forall f | f in done ensures f in d.top && f != stop.file {
      assert f in files;
    }
    RunCompletes(d, done, Some(stop));
    RunSnoc(d, files, Some(stop), k);
    FailureSticks(d, files, Some(stop), k + 1);
  }

  /** A listing of the pending files. */
  predicate Lists(top: Files, available: seq<string>) {
    (forall f <- available :: f in top) && forall f <- top :: f in available
  }

  /**
   * After a run of every pending bundle without a failure there is nothing left to send: whatever
   * listing of the directory a later command reads, it selects nothing or reports a missing name.
   */
  lemma RerunSendsNothing(d: Dir, files: seq<string>, available: seq<string>, o: Options)
    requires Distinct(files) && Lists(d.top, files) && Lists(Run(d, files, None).dir.top, available)
    ensures var p := Run(d, files, None);
            && p.ok && p.sent == AllTxs(d.top, files) && p.dir.top == map[]
            && !SelectBundles(available, o).Execute?
            && (o.name == "" ==> SelectBundles(available, o) == NoOp)
  {
    RunCompletes(d, files, None);
    assert files[..|files|] == files;
    SomeMember(available);
  }

  lemma SomeMember<T>(s: seq<T>)
    ensures s != [] ==> exists x :: x in s
  {
    if s != [] {
      assert s[0] in s;
    }
  }

  /**
   * A failed run followed by a complete one sends everything once, except that the transactions
   * that went out before the failure go out again. So each is sent exactly once if and only if the
   * failure came before the first transaction of its bundle.
   */
  lemma RerunAfterFailure(d: Dir, files: seq<string>, k: nat, sent: nat)
    requires Distinct(files) && k < |files| && forall f <- files :: f in d.top
    requires sent <= |d.top[files[k]].transactions|
    ensures var first := Run(d, files, Some(Stop(files[k], sent)));
            var second := Run(first.dir, files[k..], None);
            && second.ok
            && first.sent + second.sent
               == AllTxs(d.top, files[..k]) + d.top[files[k]].transactions[..sent] + AllTxs(d.top, files[k..])
            && (multiset(first.sent + second.sent) == multiset(AllTxs(d.top, files)) <==> sent == 0)
  {
    var first := Run(d, files, Some(Stop(files[k], sent)));
    var again := d.top[files[k]].transactions[..sent];
    FirstRun(d, files, k, sent);
    SecondRun(d, files, k, first.dir);
    var a, b := AllTxs(d.top, files[..k]), AllTxs(d.top, files[k..]);
    AllTxsSplit(d.top, files, k);
    Resent(a, again, b);
  }

  lemma Resent(a: seq<Tx>, again: seq<Tx>, b: seq<Tx>)
    ensures multiset(a + again + b) == multiset(a + b) <==> |again| == 0
  {
    assert multiset(a + again + b) == multiset(a + b) + multiset(again);
    assert |multiset(again)| == |again|;
    assert |multiset(a + again + b)| == |multiset(a + b)| + |again|;
  }

  lemma FirstRun(d: Dir, files: seq<string>, k: nat, sent: nat)
    requires Distinct(files) && k < |files| && forall f <- files :: f in d.top
    requires sent <= |d.top[files[k]].transactions|
    ensures var first := Run(d, files, Some(Stop(files[k], sent)));
            && first.sent == AllTxs(d.top, files[..k]) + d.top[files[k]].transactions[..sent]
            && first.dir.top == Remaining(d.top, files[..k])
  {
    StoppedRun(d, files, Stop(files[k], sent), k);
    assert Prefix(d.top[files[k]].transactions, sent) == d.top[files[k]].transactions[..sent];
  }

  lemma SecondRun(d: Dir, files: seq<string>, k: nat, d': Dir)
    requires Distinct(files) && k < |files| && forall f <- files :: f in d.top
    requires d'.top == Remaining(d.top, files[..k])
    ensures var second := Run(d', files[k..], None);
            second.ok && second.sent == AllTxs(d.top, files[k..])
  {
    var rest := files[k..];
    forall f | f in rest ensures f in d'.top && d'.top[f] == d.top[f] {
      var i :| 0 <= i < |rest| && rest[i] == f;
      assert f == files[k + i];
    }
    RunCompletes(d', rest, None);
    assert rest[..|rest|] == rest;
    SameTxs(d'.top, d.top, rest);
  }

  lemma {:induction false} SameTxs(top: Files, top': Files, files: seq<string>)
    requires forall f <- files :: FileTxs(top, f) == FileTxs(top', f)
    ensures AllTxs(top, files) == AllTxs(top', files)
  {
    if files != [] {
      SameTxs(top, top', files[..|files| - 1]);
    }
  }

  lemma {:induction false} AllTxsSplit(top: Files, files: seq<string>, k: nat)
    requires k <= |files|
    ensures AllTxs(top, files) == AllTxs(top, files[..k]) + AllTxs(top, files[k..])
    decreases |files|
  {
    FilesSplit(files, k);
    if k == |files| {
      Sequences.Unit(AllTxs(top, files));
    } else {
      var n := |files| - 1;
      AllTxsSplit(top, files[..n], k);
      Sequences.Associates(AllTxs(top, files[..k]), AllTxs(top, files[k..n]), FileTxs(top, files[n]));
    }
  }

  lemma FilesSplit(files: seq<string>, k: nat)
    requires k <= |files|
    ensures k == |files| ==> files[..k] == files && files[k..] == []
    ensures var n := |files| - 1;
            k <= n ==> files[..n][..k] == files[..k] && files[..n][k..] == files[k..n]
                       && |files[k..]| == n - k + 1
                       && files[k..][..n - k] == files[k..n] && files[k..][n - k] == files[n]
  {
  }
}

/** Nothing is lost or doubled on the way from saved bundles to sent transactions. */
module Conservation {
  import opened Wrappers
  import opened Bundles
  import opened Execution
  import Sequences

  // ---------------------------------------------------------------- the pending transactions

  function BundleTxs(b: Bundle): multiset<Tx> { multiset(b.transactions) }

  ghost function Pool(top: Files): multiset<Tx> {
    if top == map[] then multiset{}
    else var f :| f in top; BundleTxs(top[f]) + Pool(top - {f})
  }

  lemma {:induction false} PoolRemove(top: Files, f: string)
    requires f in top
    ensures Pool(top) == BundleTxs(top[f]) + Pool(top - {f})
    decreases top
  {
    var g :| g in top && Pool(top) == BundleTxs(top[g]) + Pool(top - {g});
    if g != f {
      PoolRemove(top - {g}, f);
      PoolRemove(top - {f}, g);
      assert top - {g} - {f} == top - {f} - {g};
      Exchange(BundleTxs(top[g]), BundleTxs(top[f]), Pool(top - {g} - {f}));
    }
  }

  lemma Exchange(a: multiset<Tx>, b: multiset<Tx>, rest: multiset<Tx>)
    ensures a + (b + rest) == b + (a + rest)
  {
  }

  lemma PoolAdd(top: Files, f: string, b: Bundle)
    requires f !in top
    ensures Pool(top[f := b]) == BundleTxs(b) + Pool(top)
  {
    PoolRemove(top[f := b], f);
    assert top[f := b] - {f} == top;
  }

  lemma {:induction false} PoolSplit(top: Files, files: seq<string>)
    requires Distinct(files) && forall f <- files :: f in top
    ensures Pool(top) == multiset(AllTxs(top, files)) + Pool(Remaining(top, files))
  {
    if files == [] {
      assert Remaining(top, files) == top;
    } else {
      var init, last := files[..|files| - 1], files[|files| - 1];
      assert last in files && last !in init && forall f <- init :: f in files;
      PoolSplit(top, init);
      Snoc(top, files);
      PoolRemove(Remaining(top, init), last);
    }
  }

  /** Every file was written by a builder. */
  predicate PaddedFiles(top: Files) {
    forall f <- top :: forall i :: 0 <= i < |top[f].transactions| ==> top[f].transactions[i].padded
  }

  lemma PaddedItemsTxs(b: Bundle)
    requires forall i :: 0 <= i < |b.transactions| ==> b.transactions[i].padded
    ensures Txs(Items(b)) == b.transactions
  {
    forall i | 0 <= i < |b.transactions| ensures Txs(Items(b))[i] == b.transactions[i] {
      assert Padded(b.transactions[i]) == b.transactions[i];
    }
  }

  // ---------------------------------------------------------------- consolidation

  lemma {:induction false} SourcesWellFormed(top: Files, prefix: string, names: seq<string>)
    requires Distinct(names)
    ensures var s := Sources(top, prefix, names);
            && Distinct(s) && (forall f <- s :: f in top)
            && (forall f <- s :: exists n <- names :: f == SourceName(prefix, n))
            && (forall n <- names :: SourceName(prefix, n) in top && |top[SourceName(prefix, n)].transactions| > 0
                  ==> SourceName(prefix, n) in s)
  {
    if names != [] {
      var init, last := names[..|names| - 1], names[|names| - 1];
      SourcesWellFormed(top, prefix, init);
      var s, file := Sources(top, prefix, init), SourceName(prefix, last);
      MembersSnoc(init, last);
      assert init + [last] == names;
      NewSource(prefix, init, last, s);
      DistinctSnoc(s, file);
      MembersSnoc(s, file);
      forall f | f in Sources(top, prefix, names) ensures exists n <- names :: f == SourceName(prefix, n) {
        if f in s {
          var n :| n in init && f == SourceName(prefix, n);
          assert n in names;
        } else {
          assert last in names;
        }
      }
    }
  }

  lemma NewSource(prefix: string, init: seq<string>, last: string, s: seq<string>)
    requires last !in init && forall f <- s :: exists n <- init :: f == SourceName(prefix, n)
    ensures SourceName(prefix, last) !in s
  {
    if SourceName(prefix, last) in s {
      var n :| n in init && SourceName(prefix, last) == SourceName(prefix, n);
      SourceNameInjective(prefix, n, last);
    }
  }

  lemma MembersSnoc<T>(s: seq<T>, last: T)
    ensures forall x :: x in s + [last] <==> x in s || x == last
  {
  }

  lemma DistinctSnoc<T>(s: seq<T>, last: T)
    requires Distinct(s) && last !in s
    ensures Distinct(s + [last])
  {
  }

  lemma {:induction false} GatheredIsSources(top: Files, prefix: string, names: seq<string>)
    requires PaddedFiles(top)
    ensures Txs(Gathered(top, prefix, names)) == AllTxs(top, Sources(top, prefix, names))
  {
    if names != [] {
      var init, last := names[..|names| - 1], names[|names| - 1];
      GatheredIsSources(top, prefix, init);
      var items := Contribution(top, prefix, last);
      TxsConcat(Gathered(top, prefix, init), items);
      var s := Sources(top, prefix, init);
      if |items| > 0 {
        PaddedItemsTxs(top[SourceName(prefix, last)]);
        assert (s + [SourceName(prefix, last)])[..|s|] == s;
      } else {
        Sequences.Unit(s);
        Sequences.Unit(Txs(Gathered(top, prefix, init)));
      }
    }
  }

  /** The sub-directory of a batch after some files moved into it. */
  function Incorporating(d: Dir, files: seq<string>, batch: string): map<string, Files> {
    if files == [] then d.incorporated
    else
      var kept := if batch in d.incorporated then d.incorporated[batch] else map[];
      d.incorporated[batch := kept + Restricted(d.top, files)]
  }

  lemma {:induction false} MovedAll(d: Dir, files: seq<string>, batch: string)
    requires Distinct(files) && forall f <- files :: f in d.top
    ensures Moved(d, files, batch) == Some(Dir(Remaining(d.top, files), Incorporating(d, files, batch), d.executed))
  {
    if files == [] {
      assert Remaining(d.top, files) == d.top;
    } else {
      var init, last := files[..|files| - 1], files[|files| - 1];
      assert last in files && last !in init && forall f <- init :: f in files;
      MovedAll(d, init, batch);
      Snoc(d.top, files);
      IncorporatingSnoc(d, files, batch);
    }
  }

  lemma IncorporatingSnoc(d: Dir, files: seq<string>, batch: string)
    requires files != [] && files[|files| - 1] in d.top
    ensures var last := files[|files| - 1];
            var before := Incorporating(d, files[..|files| - 1], batch);
            Incorporating(d, files, batch)
            == before[batch := (if batch in before then before[batch] else map[])[last := d.top[last]]]
  {
    var init, last := files[..|files| - 1], files[|files| - 1];
    var kept := if batch in d.incorporated then d.incorporated[batch] else map[];
    Snoc(d.top, files);
    MergeOneMore(kept, Restricted(d.top, init), last, d.top[last]);
    if init == [] {
      assert kept + Restricted(d.top, init) == kept;
    }
  }

  lemma MergeOneMore(m: Files, added: Files, f: string, b: Bundle)
    ensures m + added[f := b] == (m + added)[f := b]
  {
  }

  /** The directory once `sources` have been replaced by one bundle in the claimed slot. */
  function Replaced(d1: Dir, batch: string, sources: seq<string>, b: Bundle): Dir {
    Dir(Remaining(d1.top, sources)[FileName(batch) := b],
        if sources == [] then d1.incorporated else d1.incorporated[batch := Restricted(d1.top, sources)],
        d1.executed)
  }

  /**
   * Consolidation never fails on distinct names. The new file holds the sources' transactions in
   * entry order, with their metadata, followed by the extra ones; the sources leave the top level
   * for `incorporated/`; every other pending file stays; and the pending transactions are those that
   * were pending once the slot had been claimed, plus the extra ones.
   */
  lemma ConsolidationConserves(d: Dir, batch: string, names: seq<string>, prefix: string, extra: seq<Item>)
    requires Distinct(names) && PaddedFiles(d.top)
    ensures var r := Consolidated(d, batch, names, prefix, extra);
            var d1 := Claimed(d, batch);
            var items := Gathered(d1.top, prefix, names) + PaddedItems(extra);
            var sources := Sources(d1.top, prefix, names);
            var b := Saved(items, Some(sources));
            && r == Some(if items == [] then d1 else Replaced(d1, batch, sources, b))
            && Items(b) == items
            && PaddedFiles(r.value.top)
            && Pool(r.value.top) == Pool(d1.top) + multiset(Txs(PaddedItems(extra)))
  {
    var d1 := Claimed(d, batch);
    var gathered := Gathered(d1.top, prefix, names);
    var items := gathered + PaddedItems(extra);
    var sources := Sources(d1.top, prefix, names);
    GatheredPadded(d1.top, prefix, names);
    SaveGatherRoundTrip(items, Some(sources));
    SourcesWellFormed(d1.top, prefix, names);
    GatheredIsSources(d1.top, prefix, names);
    TxsConcat(gathered, PaddedItems(extra));
    if items == [] {
      assert Txs(PaddedItems(extra)) == [];
    } else {
      ReplacedBy(d1, batch, sources, Saved(items, Some(sources)));
      ReplacedPool(d1, batch, sources, items, Txs(PaddedItems(extra)));
    }
  }

  lemma TxsConcat(a: seq<Item>, b: seq<Item>)
    ensures Txs(a + b) == Txs(a) + Txs(b)
  {
  }

  lemma ReplacedPool(d1: Dir, batch: string, sources: seq<string>, items: seq<Item>, extra: seq<Tx>)
    requires Distinct(sources) && (forall f <- sources :: f in d1.top) && FileName(batch) !in d1.top
    requires AllPadded(items) && Txs(items) == AllTxs(d1.top, sources) + extra
    requires PaddedFiles(d1.top)
    ensures var r := Replaced(d1, batch, sources, Saved(items, Some(sources)));
            PaddedFiles(r.top) && Pool(r.top) == Pool(d1.top) + multiset(extra)
  {
    PoolSplit(d1.top, sources);
    PoolAdd(Remaining(d1.top, sources), FileName(batch), Saved(items, Some(sources)));
  }

  lemma ReplacedBy(d1: Dir, batch: string, sources: seq<string>, b: Bundle)
    requires Distinct(sources) && (forall f <- sources :: f in d1.top) && FileName(batch) !in d1.top
    requires batch !in d1.incorporated
    ensures Moved(d1.(top := d1.top[FileName(batch) := b]), sources, batch) == Some(Replaced(d1, batch, sources, b))
  {
    var file := FileName(batch);
    var d2 := d1.(top := d1.top[file := b]);
    assert file !in sources;
    BesideFiles(d1.top, sources, file, b);
    forall f | f in sources ensures f in d2.top {
      assert f in d1.top;
    }
    MovedAll(d2, sources, batch);
    assert map[] + Restricted(d1.top, sources) == Restricted(d1.top, sources);
  }

  lemma BesideFiles(top: Files, files: seq<string>, other: string, b: Bundle)
    requires other !in files
    ensures Remaining(top[other := b], files) == Remaining(top, files)[other := b]
    ensures Restricted(top[other := b], files) == Restricted(top - {other}, files)
    ensures other !in top ==> Restricted(top - {other}, files) == Restricted(top, files)
  {
    assert other !in top ==> top - {other} == top;
  }

  lemma GatheredPadded(top: Files, prefix: string, names: seq<string>)
    ensures AllPadded(Gathered(top, prefix, names))
  {
  }

  // ---------------------------------------------------------------- whole histories

  datatype Action =
    /** A script that claims its slot and then finds nothing to save. */
    | Claim(name: string)
    | Save(name: string, items: seq<Item>)
    | Consolidate(batch: string, names: seq<string>, prefix: string)
    | ExecuteFiles(files: seq<string>)

  /**
   * `saved` remembers every transaction ever written to a bundle, `discarded` those of pending bundles
   * that were removed because their slot was claimed again.
   */
  datatype History = History(dir: Dir, sent: seq<Tx>, saved: multiset<Tx>, discarded: multiset<Tx>)

  const START := History(Dir(map[], map[], map[]), [], multiset{}, multiset{})

  /** Any slot may be claimed, free or not; files are executed when they are pending. */
  predicate Enabled(h: History, a: Action) {
    match a
    case Claim(_) => true
    case Save(_, items) => AllPadded(items)
    case Consolidate(_, names, _) => Distinct(names)
    case ExecuteFiles(files) => Distinct(files) && forall f <- files :: f in h.dir.top
  }

  /** The pending transactions a claim of this slot removes. */
  function Dropped(top: Files, name: string): multiset<Tx> {
    if FileName(name) in top then BundleTxs(top[FileName(name)]) else multiset{}
  }

  lemma ClaimDrops(d: Dir, name: string)
    ensures Pool(d.top) == Pool(Claimed(d, name).top) + Dropped(d.top, name)
  {
    if FileName(name) in d.top {
      PoolRemove(d.top, FileName(name));
    } else {
      assert Claimed(d, name).top == d.top;
    }
  }

  /** One action of the deployment scripts, without a failure. */
  function After(h: History, a: Action): History {
    match a
    case Claim(name) => h.(dir := Claimed(h.dir, name), discarded := h.discarded + Dropped(h.dir.top, name))
    case Save(name, items) =>
      var d := Claimed(h.dir, name);
      History(d.(top := d.top[FileName(name) := Saved(items, None)]), h.sent, h.saved + multiset(Txs(items)),
              h.discarded + Dropped(h.dir.top, name))
    case Consolidate(batch, names, prefix) =>
      h.(dir := Consolidated(h.dir, batch, names, prefix, []).GetOr(h.dir),
         discarded := h.discarded + Dropped(h.dir.top, batch))
    case ExecuteFiles(files) =>
      var p := Run(h.dir, files, None);
      h.(dir := p.dir, sent := h.sent + p.sent)
  }

  ghost predicate Balanced(h: History) {
    PaddedFiles(h.dir.top) && multiset(h.sent) + Pool(h.dir.top) + h.discarded == h.saved
  }

  lemma ClaimKeepsBalance(h: History, name: string)
    requires Balanced(h)
    ensures Balanced(After(h, Claim(name)))
  {
    ClaimDrops(h.dir, name);
    DroppedFromPool(multiset(h.sent), Pool(Claimed(h.dir, name).top), Dropped(h.dir.top, name), h.discarded);
  }

  lemma DroppedFromPool(sent: multiset<Tx>, rest: multiset<Tx>, dropped: multiset<Tx>, discarded: multiset<Tx>)
    ensures sent + rest + (discarded + dropped) == sent + (rest + dropped) + discarded
  {
  }

  lemma SaveKeepsBalance(h: History, name: string, items: seq<Item>)
    requires Balanced(h) && AllPadded(items)
    ensures Balanced(After(h, Save(name, items)))
  {
    ClaimKeepsBalance(h, name);
    PoolAdd(Claimed(h.dir, name).top, FileName(name), Saved(items, None));
  }

  lemma ConsolidateKeepsBalance(h: History, batch: string, names: seq<string>, prefix: string)
    requires Balanced(h) && Distinct(names)
    ensures Balanced(After(h, Consolidate(batch, names, prefix)))
  {
    ClaimKeepsBalance(h, batch);
    NothingExtra(h.dir, batch, names, prefix);
  }

  /** Without extra transactions what is pending after the claim stays pending. */
  lemma NothingExtra(d: Dir, batch: string, names: seq<string>, prefix: string)
    requires Distinct(names) && PaddedFiles(d.top)
    ensures var r := Consolidated(d, batch, names, prefix, []);
            r.Some? && PaddedFiles(r.value.top) && Pool(r.value.top) == Pool(Claimed(d, batch).top)
  {
    ConsolidationConserves(d, batch, names, prefix, []);
    assert Txs(PaddedItems([])) == [];
  }

  lemma ExecuteKeepsBalance(h: History, files: seq<string>)
    requires Balanced(h) && Distinct(files) && forall f <- files :: f in h.dir.top
    ensures Balanced(After(h, ExecuteFiles(files)))
  {
    RunCompletes(h.dir, files, None);
    PoolSplit(h.dir.top, files);
    MovedFromPool(multiset(h.sent), multiset(AllTxs(h.dir.top, files)), Pool(Remaining(h.dir.top, files)), h.discarded);
    assert multiset(h.sent + AllTxs(h.dir.top, files)) == multiset(h.sent) + multiset(AllTxs(h.dir.top, files));
  }

  lemma MovedFromPool(sent: multiset<Tx>, moved: multiset<Tx>, rest: multiset<Tx>, discarded: multiset<Tx>)
    ensures (sent + moved) + rest + discarded == sent + (moved + rest) + discarded
  {
  }

  lemma ActionKeepsBalance(h: History, a: Action)
    requires Balanced(h) && Enabled(h, a)
    ensures Balanced(After(h, a))
  {
    match a
    case Claim(name) => ClaimKeepsBalance(h, name);
    case Save(name, items) => SaveKeepsBalance(h, name, items);
    case Consolidate(batch, names, prefix) => ConsolidateKeepsBalance(h, batch, names, prefix);
    case ExecuteFiles(files) => ExecuteKeepsBalance(h, files);
  }

  ghost predicate Possible(h: History, actions: seq<Action>) {
    actions == [] || (Possible(h, actions[..|actions| - 1])
                      && Enabled(Replay(h, actions[..|actions| - 1]), actions[|actions| - 1]))
  }

  ghost function Replay(h: History, actions: seq<Action>): History {
    if actions == [] then h else After(Replay(h, actions[..|actions| - 1]), actions[|actions| - 1])
  }

  /**
   * Over any history without failures, from an empty directory: every saved transaction has been sent
   * exactly once, is still pending exactly once, or went with a pending bundle whose slot was claimed
   * again. With nothing pending, what was sent is what was saved exactly if no claim dropped anything.
   */
  lemma {:induction false} EverySavedTransactionOnce(actions: seq<Action>)
    requires Possible(START, actions)
    ensures var h := Replay(START, actions);
            && Balanced(h)
            && (h.dir.top == map[] ==> (multiset(h.sent) == h.saved <==> h.discarded == multiset{}))
  {
    if actions != [] {
      EverySavedTransactionOnce(actions[..|actions| - 1]);
      ActionKeepsBalance(Replay(START, actions[..|actions| - 1]), actions[|actions| - 1]);
    }
    var h := Replay(START, actions);
    if h.dir.top == map[] {
      SumIsFirst(multiset(h.sent), h.discarded);
    }
  }

  lemma SumIsFirst(a: multiset<Tx>, b: multiset<Tx>)
    ensures a == a + b <==> b == multiset{}
  {
    assert |a + b| == |a| + |b|;
  }
}

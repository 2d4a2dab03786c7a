/** From pending implementations to active ones: build, gather, execute, sync. */
module Convergence {
  import opened Wrappers
  import opened Addresses
  import opened AddressBook
  import opened Rocketh
  import opened Sync
  import opened SyncProperties
  import opened Bundles
  import opened Execution
  import opened Upgrade
  import opened Lifecycle
  import Conservation
  import Truth
  import Chain

  /** The admin on record governs the proxy on chain: the entry's own, else that of the entry the registry names. */
  predicate Governed(reg: Registration, book: Book, c: Chain.State, n: string)
    requires n in book && reg.proxyType.Some?
  {
    var e := book[n];
    if e.proxyAdmin.Some? && e.proxyAdmin.value != "" then
      Chain.Administers(c, e.proxyAdmin.value, e.address, reg.proxyType.value)
    else
      && reg.proxyAdminName.Some? && reg.proxyAdminName.value != "" && reg.proxyAdminName.value in book
      && book[reg.proxyAdminName.value].address != ""
      && Chain.Administers(c, book[reg.proxyAdminName.value].address, e.address, reg.proxyType.value)
  }

  /** An entry whose upgrade can go through: everything a caller can check beforehand. */
  predicate Ready(R: Registry, s: Stores, c: Chain.State, n: string) {
    && Proxied(R, n) && !R[n].addressOnly && n in s.book
    && s.book[n].proxy.Some? && HasPending(s.book[n]) && !NoAddress(s.book[n].address)
    && Governed(R[n], s.book, c, n)
    && Chain.HasCode(c, s.book[n].pending.value.address)
  }

  /** Distinct names with distinct proxies. */
  predicate DistinctProxies(book: Book, names: seq<string>)
    requires forall n <- names :: n in book
  {
    && Distinct(names)
    && forall n <- names, m <- names :: n != m ==> !Same(book[n].address, book[m].address)
  }

  predicate EachReady(R: Registry, s: Stores, c: Chain.State, names: seq<string>) {
    forall n <- names :: Ready(R, s, c, n)
  }

  // ---------------------------------------------------------------- building and gathering

  /** The upgrade script of each entry in turn. */
  function BuiltAll(d: Dir, R: Registry, s: Stores, c: Chain.State, names: seq<string>): Dir
    requires forall n <- names :: n in R
  {
    if names == [] then d
    else
      var last := names[|names| - 1];
      UpgradeSaved(BuiltAll(d, R, s, c, names[..|names| - 1]), last, UpgradeBuilt(s, c, R[last], last))
  }

  function EntryItems(R: Registry, s: Stores, n: string): (items: seq<Item>)
    requires n in R && n in s.book && HasPending(s.book[n]) && AdminFor(R[n], s.book[n], s.book).Some?
    ensures AllPadded(items) && items != []
  {
    var e := s.book[n];
    UpgradeItems(n, R[n].proxyType.GetOr(Chain.Graph), AdminFor(R[n], e, s.book).value, e.address,
                 e.pending.value.address)
  }

  function AllItems(R: Registry, s: Stores, c: Chain.State, names: seq<string>): seq<Item>
    requires EachReady(R, s, c, names)
  {
    if names == [] then []
    else
      var last := names[|names| - 1];
      assert last in names;
      AllItems(R, s, c, names[..|names| - 1]) + EntryItems(R, s, last)
  }

  lemma SlotNames(n: string, m: string)
    ensures SourceName("upgrade", n) == FileName(UpgradeSlot(n))
    ensures FileName(UpgradeSlot(n)) == FileName(UpgradeSlot(m)) ==> n == m
  {
    assert "upgrade" + "-" + n == "upgrade-" + n;
    assert "upgrade" + "-" + m == "upgrade-" + m;
    if FileName(UpgradeSlot(n)) == FileName(UpgradeSlot(m)) {
      SourceNameInjective("upgrade", n, m);
    }
  }

  lemma {:induction false} BuiltFiles(d: Dir, R: Registry, s: Stores, c: Chain.State, names: seq<string>)
    requires Distinct(names) && EachReady(R, s, c, names)
    ensures var top := BuiltAll(d, R, s, c, names).top;
            forall n <- names ::
              && FileName(UpgradeSlot(n)) in top
              && top[FileName(UpgradeSlot(n))] == Saved(EntryItems(R, s, n), None)
  {
    if names != [] {
      var init, last := names[..|names| - 1], names[|names| - 1];
      assert init + [last] == names && last in names;
      BuiltFiles(d, R, s, c, init);
      assert UpgradeBuilt(s, c, R[last], last) == Built(s.book, EntryItems(R, s, last));
      forall n | n in init ensures FileName(UpgradeSlot(n)) != FileName(UpgradeSlot(last)) {
        SlotNames(n, last);
      }
    }
  }

  lemma {:induction false} GatheredItems(R: Registry, s: Stores, c: Chain.State, top: Files, names: seq<string>)
    requires EachReady(R, s, c, names)
    requires forall n <- names ::
               FileName(UpgradeSlot(n)) in top && top[FileName(UpgradeSlot(n))] == Saved(EntryItems(R, s, n), None)
    ensures Gathered(top, "upgrade", names) == AllItems(R, s, c, names)
  {
    if names != [] {
      var init, last := names[..|names| - 1], names[|names| - 1];
      assert last in names;
      GatheredItems(R, s, c, top, init);
      SlotNames(last, last);
      SaveGatherRoundTrip(EntryItems(R, s, last), None);
    }
  }

  /** Gathering the freshly built bundles cannot fail, and the consolidated file is their concatenation. */
  lemma ConsolidatedFile(d: Dir, R: Registry, s: Stores, c: Chain.State, names: seq<string>, batch: string)
    requires names != [] && Distinct(names) && EachReady(R, s, c, names)
             && (forall n <- names :: UpgradeSlot(n) != batch)
    ensures var d' := Consolidated(BuiltAll(d, R, s, c, names), batch, names, "upgrade", []);
            && d'.Some? && FileName(batch) in d'.value.top
            && d'.value.top[FileName(batch)].transactions == Txs(AllItems(R, s, c, names))
  {
    var d0 := BuiltAll(d, R, s, c, names);
    var d1 := Claimed(d0, batch);
    BuiltFiles(d, R, s, c, names);
    forall n | n in names
      ensures FileName(UpgradeSlot(n)) in d1.top && d1.top[FileName(UpgradeSlot(n))] == Saved(EntryItems(R, s, n), None)
    {
      FileNameInjective(UpgradeSlot(n), batch);
    }
    GatheredItems(R, s, c, d1.top, names);
    var items := AllItems(R, s, c, names);
    assert items + PaddedItems([]) == items;
    assert EntryItems(R, s, names[|names| - 1]) != [];
    var sources := Sources(d1.top, "upgrade", names);
    Conservation.SourcesWellFormed(d1.top, "upgrade", names);
    Conservation.ReplacedBy(d1, batch, sources, Saved(items, Some(sources)));
  }

  lemma FileNameInjective(a: string, b: string)
    ensures FileName(a) == FileName(b) ==> a == b
  {
    if FileName(a) == FileName(b) {
      assert |a| == |b| && FileName(a)[..|a|] == a && FileName(b)[..|b|] == b;
    }
  }

  // ---------------------------------------------------------------- executing

  /** The chain with one more proxy running its pending implementation. */
  function Activated(c: Chain.State, e: Entry): Chain.State
    requires HasPending(e) && Lower(e.address) in c.proxies
  {
    var p := c.proxies[Lower(e.address)];
    c.(proxies := c.proxies[Lower(e.address) :=
      p.(implementation := Lower(e.pending.value.address), proposed := None)])
  }

  /** Both kinds of proxy end up running the pending implementation, in one call or in two. */
  lemma EntryActivates(R: Registry, s: Stores, c: Chain.State, n: string)
    requires Ready(R, s, c, n)
    ensures Applied(c, Txs(EntryItems(R, s, n))) == Activated(c, s.book[n])
  {
    var e := s.book[n];
    var admin := AdminFor(R[n], e, s.book).value;
    var txs := Txs(EntryItems(R, s, n));
    var impl := e.pending.value.address;
    match R[n].proxyType.value
    case Transparent =>
      assert txs[..0] == [];
    case Graph =>
      assert txs[..1] == [txs[0]] && txs[..1][..0] == [];
      var c1 := Chain.Executed(c, admin, Chain.Upgrade(e.address, impl));
      assert Applied(c, txs[..1]) == c1;
  }

  predicate AllPending(s: Stores, names: seq<string>) {
    forall n <- names :: n in s.book && HasPending(s.book[n])
  }

  ghost predicate ActivatedUpTo(s: Stores, c: Chain.State, c': Chain.State, names: seq<string>)
    requires AllPending(s, names)
  {
    && c'.code == c.code && c'.proxies.Keys == c.proxies.Keys
    && (forall n <- names ::
          && Lower(s.book[n].address) in c.proxies
          && c'.proxies[Lower(s.book[n].address)]
             == c.proxies[Lower(s.book[n].address)].(implementation := Lower(s.book[n].pending.value.address),
                                                     proposed := None))
    && (forall a <- c.proxies :: (forall n <- names :: a != Lower(s.book[n].address)) ==> c'.proxies[a] == c.proxies[a])
  }

  /** The last proxy is none of those before it. */
  lemma LastApart(book: Book, init: seq<string>, last: string)
    requires (forall n <- init + [last] :: n in book) && DistinctProxies(book, init + [last]) && last !in init
    ensures forall n <- init :: Lower(book[last].address) != Lower(book[n].address)
  {
    assert last in init + [last] && forall n <- init :: n in init + [last];
  }

  lemma ActivatedSnoc(s: Stores, c: Chain.State, c1: Chain.State, init: seq<string>, last: string)
    requires AllPending(s, init) && ActivatedUpTo(s, c, c1, init)
    requires last in s.book && HasPending(s.book[last]) && Lower(s.book[last].address) in c.proxies
    requires forall n <- init :: Lower(s.book[last].address) != Lower(s.book[n].address)
    ensures AllPending(s, init + [last]) && ActivatedUpTo(s, c, Activated(c1, s.book[last]), init + [last])
  {
    assert c1.proxies[Lower(s.book[last].address)] == c.proxies[Lower(s.book[last].address)];
    assert Activated(c1, s.book[last]).proxies.Keys == c.proxies.Keys;
    assert forall n :: n in init + [last] <==> n in init || n == last;
  }

  lemma {:induction false} AllActivate(R: Registry, s: Stores, c: Chain.State, names: seq<string>)
    requires EachReady(R, s, c, names) && DistinctProxies(s.book, names)
    ensures ActivatedUpTo(s, c, Applied(c, Txs(AllItems(R, s, c, names))), names)
  {
    if names != [] {
      var init, last := names[..|names| - 1], names[|names| - 1];
      assert init + [last] == names && last !in init && last in names;
      assert Ready(R, s, c, last);
      AllActivate(R, s, c, init);
      LastApart(s.book, init, last);
      ActivateOneMore(R, s, c, Applied(c, Txs(AllItems(R, s, c, init))), init, last);
      AppliedItems(c, AllItems(R, s, c, init), EntryItems(R, s, last));
    }
  }

  lemma ActivateOneMore(R: Registry, s: Stores, c: Chain.State, c1: Chain.State, init: seq<string>, last: string)
    requires AllPending(s, init) && ActivatedUpTo(s, c, c1, init) && Ready(R, s, c, last)
    requires forall n <- init :: Lower(s.book[last].address) != Lower(s.book[n].address)
    ensures AllPending(s, init + [last])
    ensures ActivatedUpTo(s, c, Applied(c1, Txs(EntryItems(R, s, last))), init + [last])
  {
    ActivatedSnoc(s, c, c1, init, last);
    ReadyStays(R, s, c, c1, init, last);
    EntryActivates(R, s, c1, last);
  }

  lemma AppliedItems(c: Chain.State, a: seq<Item>, b: seq<Item>)
    ensures Applied(c, Txs(a + b)) == Applied(Applied(c, Txs(a)), Txs(b))
  {
    Conservation.TxsConcat(a, b);
    AppliedSplit(c, Txs(a), Txs(b));
  }

  lemma ReadyStays(R: Registry, s: Stores, c: Chain.State, c1: Chain.State, init: seq<string>, last: string)
    requires AllPending(s, init) && ActivatedUpTo(s, c, c1, init) && Ready(R, s, c, last)
    requires forall n <- init :: Lower(s.book[last].address) != Lower(s.book[n].address)
    ensures Ready(R, s, c1, last)
  {
    assert c1.proxies[Lower(s.book[last].address)] == c.proxies[Lower(s.book[last].address)];
  }

  // ---------------------------------------------------------------- syncing

  function SyncedAll(s: Stores, c: Chain.State, R: Registry, names: seq<string>,
                     own: string -> Option<Artifact>): Stores
    requires forall n <- names :: n in R
  {
    if names == [] then s
    else
      var last := names[|names| - 1];
      SyncComponent(SyncedAll(s, c, R, names[..|names| - 1], own), c, R[last], last, own(last)).stores
  }

  /**
   * What a sync makes of the metadata of an active implementation: it stays, unless the local artifact
   * is known to be that code and rocketh's record, moved to this address if it had another, is newer.
   */
  function TakenOver(m: Metadata, records: Records, c: Chain.State, n: string, address: string,
                     own: Option<Artifact>): Metadata {
    if m.bytecodeHash != "" && LocalHash(own) == m.bytecodeHash && !NoAddress(address) && Chain.HasCode(c, address)
       && ImplName(n) in records && RealArgs(records[ImplName(n)].argsData)
    then
      var kept := records[ImplName(n)];
      var r := if Same(kept.address, address) then kept else Sync.Moved(kept, address);
      if RockethIsNewer(Some(m), r) then BackfilledMetadata(r, m.bytecodeHash) else m
    else m
  }

  /** The metadata an entry ends up with: that of the pending implementation, taken over from rocketh if newer. */
  function PromotedMetadata(s: Stores, c: Chain.State, n: string, own: Option<Artifact>): Metadata
    requires n in s.book && s.book[n].pending.Some?
  {
    var p := s.book[n].pending.value;
    if Chain.HasCode(c, s.book[n].address) then TakenOver(p.deployment, s.records, c, n, p.address, own)
    else p.deployment
  }

  /** What the promotion of an entry looks like: the pending address and its metadata become the active ones. */
  predicate IsPromoted(s: Stores, c: Chain.State, e': Entry, n: string, own: Option<Artifact>)
    requires n in s.book && s.book[n].pending.Some?
  {
    var e := s.book[n];
    && e'.address == e.address && e'.pending == None && e'.implementation == Some(e.pending.value.address)
    && e'.implementationDeployment == Some(PromotedMetadata(s, c, n, own))
  }

  /** Without a newer record the metadata moves unchanged. */
  lemma MetadataMovesUnchanged(s: Stores, c: Chain.State, n: string, own: Option<Artifact>)
    requires n in s.book && s.book[n].pending.Some?
    requires ImplName(n) in s.records ==>
               !RockethIsNewer(Some(s.book[n].pending.value.deployment), s.records[ImplName(n)])
    ensures PromotedMetadata(s, c, n, own) == s.book[n].pending.value.deployment
  {
  }

  /** The sync after execution reads the pending implementation as the active one. */
  ghost predicate Executed(R: Registry, s: Stores, c: Chain.State, n: string) {
    && Proxied(R, n) && !R[n].addressOnly && n in s.book
    && s.book[n].proxy.Some? && HasPending(s.book[n]) && !NoAddress(s.book[n].address)
    && (exists admin :: RecordedAdmin(R[n], s.book[n], s.book, admin))
    && Chain.ReadImplementation(c, s.book[n].address) == Some(Lower(s.book[n].pending.value.address))
  }

  ghost predicate EachExecuted(R: Registry, s: Stores, c: Chain.State, names: seq<string>) {
    forall n <- names :: Executed(R, s, c, n)
  }

  lemma ImplementationSyncMetadata(s: Stores, c: Chain.State, n: string, own: Option<Artifact>)
    requires n in s.book && s.book[n].pending.None? && s.book[n].proxy.Some?
    requires s.book[n].implementationDeployment.Some? && Truthy(s.book[n].implementation)
    ensures SyncImplementation(s, c, n, own).stores.book[n].implementationDeployment
         == Some(TakenOver(s.book[n].implementationDeployment.value, s.records, c, n, s.book[n].implementation.value,
                           own))
  {
  }

  /** The sync of such an entry is a proxy sync whose reconcile step promotes it. */
  lemma SyncReachesPromotion(R: Registry, s: Stores, s1: Stores, c: Chain.State, n: string, own: Option<Artifact>)
    requires Executed(R, s, c, n) && s1.book.Keys == s.book.Keys && s1.book[n] == s.book[n]
    ensures var r := BuildSpec(R[n], n, s1.book, own);
            && r.Ok? && r.value.proxy.Some? && r.value.name == n && r.value.address == s.book[n].address
            && r.value.artifact == own && r.value.proxy.value.adminRecord == AdminRecordName(R[n], n)
            && SyncComponent(s1, c, R[n], n, own) == SyncProxy(s1, c, r.value)
            && Reconcile(s1.book, n, r.value.proxy.value, Lower(s.book[n].pending.value.address))
               == Some(s1.book[n := Promoted(s.book[n])])
  {
    var impl := s.book[n].pending.value.address;
    assert Lower(Lower(impl)) == Lower(impl) && |Lower(impl)| == |impl|;
  }

  lemma PromotingSync(s: Stores, s1: Stores, c: Chain.State, spec: Spec)
    requires var n := spec.name;
             && spec.proxy.Some? && n in s.book && spec.address == s.book[n].address && HasPending(s.book[n])
             && s.book[n].proxy.Some? && n in s1.book
             && Chain.ReadImplementation(c, spec.address) == Some(Lower(s.book[n].pending.value.address))
             && Reconcile(s1.book, n, spec.proxy.value, Lower(s.book[n].pending.value.address))
                == Some(s1.book[n := Promoted(s.book[n])])
             && spec.proxy.value.adminRecord != ImplName(n) && Truth.SameAt(s.records, s1.records, ImplName(n))
    ensures var book := SyncProxy(s1, c, spec).stores.book;
            book.Keys == s1.book.Keys && IsPromoted(s, c, book[spec.name], spec.name, spec.artifact)
  {
    var n := spec.name;
    var book := s1.book[n := Promoted(s.book[n])];
    if Chain.HasCode(c, spec.address) {
      var aliased := ImportAddress(ImportAddress(s1.records, n, spec.address), ProxyName(n), spec.address);
      var s2 := Stores(BackfillProxy(book, aliased, n), ImportProxy(s1.records, spec));
      DerivedNamesDistinct(n);
      assert Truth.SameAt(s1.records, s2.records, ImplName(n));
      SettledMetadata(s, s2, c, n, spec.artifact);
    }
  }

  /** The implementation step after the promotion. */
  lemma SettledMetadata(s: Stores, s2: Stores, c: Chain.State, n: string, own: Option<Artifact>)
    requires n in s.book && HasPending(s.book[n]) && s.book[n].proxy.Some? && Chain.HasCode(c, s.book[n].address)
    requires n in s2.book && s2.book[n] == Promoted(s.book[n]).(proxyDeployment := s2.book[n].proxyDeployment)
    requires Truth.SameAt(s.records, s2.records, ImplName(n))
    ensures var book := SyncImplementation(s2, c, n, own).stores.book;
            book.Keys == s2.book.Keys && IsPromoted(s, c, book[n], n, own)
  {
    ImplementationSyncFrame(s2, c, n, own);
    ImplementationSyncMetadata(s2, c, n, own);
  }

  lemma SyncPromotes(R: Registry, s: Stores, s1: Stores, c: Chain.State, n: string, own: Option<Artifact>)
    requires WellFormed(R) && Executed(R, s, c, n)
    requires s1.book.Keys == s.book.Keys && s1.book[n] == s.book[n]
    requires Truth.SameAt(s.records, s1.records, ImplName(n))
    ensures var s2 := SyncComponent(s1, c, R[n], n, own).stores;
            && s2.book.Keys == s.book.Keys && IsPromoted(s, c, s2.book[n], n, own)
            && (forall m :: m != n ==> Truth.SameAt(s1.book, s2.book, m))
            && (forall m :: m != n && Proxied(R, m) ==> Truth.SameAt(s1.records, s2.records, ImplName(m)))
  {
    SyncReachesPromotion(R, s, s1, c, n, own);
    var spec := BuildSpec(R[n], n, s1.book, own).value;
    RecordsApart(R, n, n);
    PromotingSync(s, s1, c, spec);
    forall m | m != n ensures Truth.SameAt(s1.book, SyncProxy(s1, c, spec).stores.book, m) {
      Truth.ProxySyncFrame(s1, c, spec, m);
    }
    forall m | m != n && Proxied(R, m)
      ensures Truth.SameAt(s1.records, SyncProxy(s1, c, spec).stores.records, ImplName(m))
    {
      RecordsApart(R, n, m);
      Truth.ProxySyncFrame(s1, c, spec, ImplName(m));
    }
  }

  ghost predicate PromotedUpTo(R: Registry, s: Stores, c: Chain.State, s': Stores, names: seq<string>,
                               own: string -> Option<Artifact>)
    requires AllPending(s, names)
  {
    && s'.book.Keys == s.book.Keys
    && (forall n <- names :: IsPromoted(s, c, s'.book[n], n, own(n)))
    && (forall n <- s.book :: n !in names ==> s'.book[n] == s.book[n])
    && (forall m :: Proxied(R, m) && m !in names ==> Truth.SameAt(s.records, s'.records, ImplName(m)))
  }

  lemma PromotedSnoc(R: Registry, s: Stores, c: Chain.State, s1: Stores, s2: Stores, init: seq<string>, last: string,
                     own: string -> Option<Artifact>)
    requires AllPending(s, init + [last]) && AllPending(s, init) && PromotedUpTo(R, s, c, s1, init, own)
             && last !in init
    requires last in s.book && s2.book.Keys == s.book.Keys && IsPromoted(s, c, s2.book[last], last, own(last))
    requires forall m :: m != last ==> Truth.SameAt(s1.book, s2.book, m)
    requires forall m :: m != last && Proxied(R, m) ==> Truth.SameAt(s1.records, s2.records, ImplName(m))
    ensures PromotedUpTo(R, s, c, s2, init + [last], own)
  {
    forall n | n in init + [last] ensures IsPromoted(s, c, s2.book[n], n, own(n)) {
      assert n != last ==> n in init && Truth.SameAt(s1.book, s2.book, n);
    }
    forall n | n in s.book && n !in init + [last] ensures s2.book[n] == s.book[n] {
      assert last in init + [last] && Truth.SameAt(s1.book, s2.book, n);
    }
    forall m | Proxied(R, m) && m !in init + [last] ensures Truth.SameAt(s.records, s2.records, ImplName(m)) {
      assert last in init + [last] && Truth.SameAt(s1.records, s2.records, ImplName(m));
    }
  }

  lemma {:induction false} AllPromote(R: Registry, s: Stores, c: Chain.State, names: seq<string>,
                                      own: string -> Option<Artifact>)
    requires WellFormed(R) && Distinct(names) && EachExecuted(R, s, c, names)
    ensures AllPending(s, names) && PromotedUpTo(R, s, c, SyncedAll(s, c, R, names, own), names, own)
  {
    if names != [] {
      var init, last := names[..|names| - 1], names[|names| - 1];
      assert init + [last] == names && last !in init && last in names;
      AllPromote(R, s, c, init, own);
      var s1 := SyncedAll(s, c, R, init, own);
      assert Executed(R, s, c, last);
      SyncPromotes(R, s, s1, c, last, own(last));
      PromotedSnoc(R, s, c, s1, SyncedAll(s, c, R, names, own), init, last, own);
    }
  }

  // ---------------------------------------------------------------- end to end

  lemma BatchRun(d: Dir, file: string)
    requires file in d.top
    ensures Run(d, [file], None).ok && Run(d, [file], None).sent == d.top[file].transactions
  {
    assert AllTxs(d.top, [file]) == FileTxs(d.top, file);
    RunCompletes(d, [file], None);
  }

  lemma ReadyIsPending(R: Registry, s: Stores, c: Chain.State, names: seq<string>)
    requires EachReady(R, s, c, names)
    ensures AllPending(s, names)
  {
    forall n | n in names ensures n in s.book && HasPending(s.book[n]) {
      assert Ready(R, s, c, n);
    }
  }

  /** An entry that was ready and has been activated is what the sync expects. */
  lemma ActivatedIsExecuted(R: Registry, s: Stores, c: Chain.State, c': Chain.State, names: seq<string>)
    requires EachReady(R, s, c, names) && AllPending(s, names) && ActivatedUpTo(s, c, c', names)
    ensures EachExecuted(R, s, c', names)
  {
    forall n | n in names ensures Executed(R, s, c', n) {
      assert Ready(R, s, c, n);
      assert RecordedAdmin(R[n], s.book[n], s.book, AdminFor(R[n], s.book[n], s.book).value);
    }
  }

  /** Sending what the consolidated bundle holds, then syncing each entry. */
  lemma SentAndSynced(R: Registry, s: Stores, c: Chain.State, names: seq<string>, own: string -> Option<Artifact>)
    requires WellFormed(R) && EachReady(R, s, c, names) && DistinctProxies(s.book, names)
    ensures var c' := Applied(c, Txs(AllItems(R, s, c, names)));
            && AllPending(s, names) && ActivatedUpTo(s, c, c', names)
            && PromotedUpTo(R, s, c', SyncedAll(s, c', R, names, own), names, own)
  {
    var c' := Applied(c, Txs(AllItems(R, s, c, names)));
    ReadyIsPending(R, s, c, names);
    AllActivate(R, s, c, names);
    ActivatedIsExecuted(R, s, c, c', names);
    AllPromote(R, s, c', names, own);
  }

  /** The consolidated bundle, executed. */
  lemma ConsolidatedRun(d: Dir, R: Registry, s: Stores, c: Chain.State, names: seq<string>, batch: string)
    requires names != [] && Distinct(names) && EachReady(R, s, c, names)
             && (forall n <- names :: UpgradeSlot(n) != batch)
    ensures var d1 := Consolidated(BuiltAll(d, R, s, c, names), batch, names, "upgrade", []);
            && d1.Some?
            && var p := Run(d1.value, [FileName(batch)], None);
               p.ok && p.sent == Txs(AllItems(R, s, c, names))
  {
    ConsolidatedFile(d, R, s, c, names, batch);
    BatchRun(Consolidated(BuiltAll(d, R, s, c, names), batch, names, "upgrade", []).value, FileName(batch));
  }

  /**
   * For any upgradeable entries with distinct names and proxies, each with a pending
   * implementation that has code and an admin that governs its proxy: building one bundle per
   * entry, gathering them, executing the consolidated bundle and syncing each entry leaves every
   * `implementation` equal to its former pending address, with the metadata moved and pending
   * cleared; no other entry and no other proxy changes.
   */
  lemma UpgradesConverge(R: Registry, s: Stores, c: Chain.State, d: Dir, names: seq<string>, batch: string,
                         own: string -> Option<Artifact>)
    requires WellFormed(R) && names != []
    requires EachReady(R, s, c, names) && DistinctProxies(s.book, names)
    requires forall n <- names :: UpgradeSlot(n) != batch
    ensures var d1 := Consolidated(BuiltAll(d, R, s, c, names), batch, names, "upgrade", []);
            && d1.Some?
            && var p := Run(d1.value, [FileName(batch)], None);
               var c' := Applied(c, p.sent);
               var s' := SyncedAll(s, c', R, names, own);
               && p.ok && AllPending(s, names)
               && ActivatedUpTo(s, c, c', names) && PromotedUpTo(R, s, c', s', names, own)
  {
    ConsolidatedRun(d, R, s, c, names, batch);
    SentAndSynced(R, s, c, names, own);
  }
}

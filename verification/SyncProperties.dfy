/** What sync guarantees whatever the two stores held before. */
module SyncProperties {
  import opened Wrappers
  import opened Addresses
  import opened AddressBook
  import opened Rocketh
  import opened Sync
  import Chain

  /** The three derived record names of a contract and its own name are pairwise distinct. */
  lemma DerivedNamesDistinct(name: string)
    ensures ProxyName(name) != name && ImplName(name) != name && ProxyName(name) != ImplName(name)
  {
    assert |ProxyName(name)| == |name| + 6 && |ImplName(name)| == |name| + 15;
  }

  /** The registry never uses one of a proxy's own record names for its admin. */
  predicate AdminRecordApart(reg: Registration, name: string) {
    AdminRecordName(reg, name) !in {name, ProxyName(name), ImplName(name)}
  }

  /** Everything about an entry except the metadata of its latest implementation. */
  predicate SameButLatestMetadata(e: Entry, e': Entry) {
    && e'.address == e.address && e'.proxy == e.proxy && e'.proxyAdmin == e.proxyAdmin
    && e'.implementation == e.implementation && e'.LatestAddress() == e.LatestAddress()
    && e'.pending.Some? == e.pending.Some?
    && e'.deployment == e.deployment && e'.proxyDeployment == e.proxyDeployment
  }

  ghost predicate SameElsewhere<V>(m: map<string, V>, m': map<string, V>, name: string) {
    m' - {name} == m - {name}
  }

  lemma ImplementationSyncFrame(s: Stores, c: Chain.State, name: string, artifact: Option<Artifact>)
    requires name in s.book
    ensures var r := SyncImplementation(s, c, name, artifact).stores;
            && r.book.Keys == s.book.Keys
            && SameElsewhere(s.book, r.book, name) && SameElsewhere(s.records, r.records, ImplName(name))
            && SameButLatestMetadata(s.book[name], r.book[name])
  {
  }

  /** Importing and patching a second time changes nothing, whichever of the two argument texts is at hand. */
  lemma ImplementationRecordSettles(records: Records, name: string, address: string,
                                    artifact: Option<Artifact>, args: string)
    ensures var record := ImplName(name);
            var imported := ImportPlain(records, ImplSpec(name, address, artifact), true);
            var patched := PatchedArgs(imported, record, args);
            && record in patched
            && ImportPlain(patched, ImplSpec(name, address, artifact), true) == patched
            && PatchedArgs(patched, record, args) == patched
            && (RealArgs(patched[record].argsData) ==>
                  PatchedArgs(patched, record, patched[record].argsData) == patched)
  {
    var patched := PatchedArgs(ImportPlain(records, ImplSpec(name, address, artifact), true), ImplName(name), args);
    assert patched[ImplName(name) := patched[ImplName(name)]] == patched;
  }

  /** After a backfill the record is no longer newer. */
  lemma ImplementationMetadataSettles(book: Book, records: Records, name: string, hash: string)
    requires name in book
    ensures var book' := BackfillImplementation(book, records, name, hash);
            && name in book' && SameButLatestMetadata(book[name], book'[name])
            && BackfillImplementation(book', records, name, hash) == book'
            && (book'[name].LatestMetadata() != book[name].LatestMetadata() ==>
                  && ImplName(name) in records && RealArgs(records[ImplName(name)].argsData)
                  && HashOf(book'[name].LatestMetadata()) == hash
                  && ArgsOf(book'[name].LatestMetadata()) == records[ImplName(name)].argsData)
  {
  }

  lemma ImplementationSyncIdempotent(s: Stores, c: Chain.State, name: string, artifact: Option<Artifact>)
    requires name in s.book
    ensures var r := SyncImplementation(s, c, name, artifact);
            && name in r.stores.book
            && SyncImplementation(r.stores, c, name, artifact) == r
  {
    var e := s.book[name];
    if Truthy(e.LatestAddress()) && HashMatches(e, artifact) {
      var address, args := e.LatestAddress().value, ArgsOf(e.LatestMetadata());
      ImplementationRecordSettles(s.records, name, address, artifact, args);
      var imported := ImportPlain(s.records, ImplSpec(name, address, artifact), true);
      ImplementationMetadataSettles(s.book, PatchedArgs(imported, ImplName(name), args), name, LocalHash(artifact));
    }
  }

  /** What the sync of a contract without a proxy does not touch. */
  lemma PlainSyncFrame(s: Stores, c: Chain.State, spec: Spec)
    ensures var r := SyncPlain(s, c, spec).stores;
            && r.book.Keys == s.book.Keys
            && (forall n <- s.book :: r.book[n] == s.book[n].(deployment := r.book[n].deployment))
            && (forall n <- s.book :: n != spec.name ==> r.book[n] == s.book[n])
            && (forall n :: n != spec.name
                  ==> (n in r.records <==> n in s.records) && (n in s.records ==> r.records[n] == s.records[n]))
  {
  }

  /** A second import changes nothing once there is a record, whatever the gate and the arguments are by then. */
  lemma PlainImportSettles(records: Records, spec: Spec, spec': Spec, seed: bool, seed': bool)
    requires spec'.name == spec.name && spec'.address == spec.address
    ensures var r := ImportPlain(records, spec, seed);
            if spec.name in r then ImportPlain(r, spec', seed') == r else r == records && !seed
  {
  }

  /** After a backfill the record is no longer newer; without one the book stays. */
  lemma PlainMetadataSettles(s: Stores, spec: Spec, spec': Spec)
    requires spec.name in s.book && spec'.name == spec.name
    requires spec'.registered == spec.registered && spec'.artifact == spec.artifact
    ensures var r := BackfillDeployment(s, spec);
            && r.success && r.stores.records == s.records && r.stores.book.Keys == s.book.Keys
            && r.stores.book[spec.name] == s.book[spec.name].(deployment := r.stores.book[spec.name].deployment)
            && BackfillDeployment(r.stores, spec') == r
            && (spec.name !in s.records ==> r.stores == s)
  {
  }

  lemma PlainSettles(s: Stores, c: Chain.State, spec: Spec, spec': Spec)
    requires spec.name in s.book && spec' == spec.(argsData := spec'.argsData)
    requires SyncPlain(s, c, spec).stores == s ==> spec' == spec
    ensures var r := SyncPlain(s, c, spec);
            SyncPlain(r.stores, c, spec') == r
  {
    if Chain.HasCode(c, spec.address) {
      var s1 := s.(records := ImportPlain(s.records, spec, ShouldSeed(spec, s.book)));
      var r := BackfillDeployment(s1, spec);
      PlainMetadataSettles(s1, spec, spec');
      PlainImportSettles(s.records, spec, spec', ShouldSeed(spec, s.book), ShouldSeed(spec', r.stores.book));
    }
  }

  lemma PlainSyncIdempotent(s: Stores, c: Chain.State, reg: Registration, name: string, artifact: Option<Artifact>)
    requires name in s.book && reg.proxyType.None?
    ensures var r := SyncComponent(s, c, reg, name, artifact);
            SyncComponent(r.stores, c, reg, name, artifact) == r
  {
    var spec := BuildSpec(reg, name, s.book, artifact).value;
    var r := SyncComponent(s, c, reg, name, artifact);
    if !NoAddress(spec.address) && !spec.addressOnly {
      PlainSyncFrame(s, c, spec);
      PlainSettles(s, c, spec, BuildSpec(reg, name, r.stores.book, artifact).value);
    }
  }

  /** Reconciling changes one entry, in one of three ways, and afterwards there is nothing left to reconcile. */
  lemma ReconcileSettles(book: Book, name: string, p: ProxySpec, onChain: string)
    requires name in book && p.bookImpl == book[name].implementation
    requires p.bookPending == PendingAddress(book[name])
    ensures var r := Reconcile(book, name, p, onChain);
            && r.Some? && r.value.Keys == book.Keys && SameElsewhere(book, r.value, name)
            && var e := r.value[name];
               && e.address == book[name].address && e.proxyAdmin == book[name].proxyAdmin
               && SameOpt(e.implementation, onChain)
               && (e.pending.Some? && e.pending.value.address != "" ==> !Same(e.pending.value.address, onChain))
  {
  }

  function PendingAddress(e: Entry): Option<string> {
    if e.pending.Some? then Some(e.pending.value.address) else None
  }

  /** The stores when a proxy's sync gets to its implementation. */
  function BeforeImplementation(s: Stores, spec: Spec, onChain: string): (r: Stores)
    requires spec.proxy.Some? && spec.name in s.book
    requires spec.proxy.value.bookPending == PendingAddress(s.book[spec.name])
    ensures spec.name in r.book
  {
    var aliased := ImportAddress(ImportAddress(s.records, spec.name, spec.address), ProxyName(spec.name), spec.address);
    var book := Reconcile(s.book, spec.name, spec.proxy.value, onChain).value;
    Stores(BackfillProxy(book, aliased, spec.name), ImportProxy(s.records, spec))
  }

  lemma SettledStays(book: Book, name: string, p: ProxySpec, onChain: string)
    requires name in book && SameOpt(p.bookImpl, onChain)
    requires p.bookPending.Some? && p.bookPending.value != "" ==> !Same(p.bookPending.value, onChain)
    ensures Reconcile(book, name, p, onChain) == Some(book)
  {
  }

  /**
   * A second sync against the same chain and artifact changes nothing and reports the same, for
   * every starting state of the two stores.
   */
  lemma SyncIdempotent(s: Stores, c: Chain.State, reg: Registration, name: string, artifact: Option<Artifact>)
    requires AdminRecordApart(reg, name)
    ensures var r := SyncComponent(s, c, reg, name, artifact);
            SyncComponent(r.stores, c, reg, name, artifact) == r
  {
    if name in s.book && reg.proxyType.None? {
      PlainSyncIdempotent(s, c, reg, name, artifact);
    } else if name in s.book && BuildSpec(reg, name, s.book, artifact).Ok? {
      ProxySyncIdempotent(s, c, reg, name, artifact);
    }
  }

  /** The specification built after a sync differs from the first one only in what it remembers of the entry. */
  lemma RebuiltSpec(reg: Registration, name: string, book: Book, book': Book, artifact: Option<Artifact>)
    requires name in book && name in book' && book'.Keys == book.Keys && SameElsewhere(book, book', name)
    requires book'[name].address == book[name].address && book'[name].proxyAdmin == book[name].proxyAdmin
    requires reg.proxyType.Some? && BuildSpec(reg, name, book, artifact).Ok?
    ensures var spec := BuildSpec(reg, name, book, artifact).value;
            var r := BuildSpec(reg, name, book', artifact);
            && r.Ok?
            && r.value == spec.(argsData := r.value.argsData,
                                proxy := Some(spec.proxy.value.(bookImpl := book'[name].implementation,
                                                                bookPending := PendingAddress(book'[name]))))
  {
    var admin := reg.proxyAdminName;
    if Truthy(admin) && admin.value in book && admin.value != name {
      assert admin.value in book' - {name};
      assert (book - {name})[admin.value] == (book' - {name})[admin.value];
    }
  }

  lemma ProxyAliasesSettle(records: Records, records': Records, spec: Spec)
    requires spec.proxy.Some? && spec.proxy.value.adminRecord !in {spec.name, ProxyName(spec.name), ImplName(spec.name)}
    requires SameElsewhere(ImportProxy(records, spec), records', ImplName(spec.name))
    ensures ImportAddress(ImportAddress(records', spec.name, spec.address), ProxyName(spec.name), spec.address)
            == records'
    ensures ImportProxy(records', spec) == records'
  {
    DerivedNamesDistinct(spec.name);
    var r := ImportProxy(records, spec);
    forall n | n in {spec.name, ProxyName(spec.name), spec.proxy.value.adminRecord}
      ensures n in r && n in records' && r[n] == records'[n]
    {
      assert n in r - {ImplName(spec.name)};
      assert (r - {ImplName(spec.name)})[n] == (records' - {ImplName(spec.name)})[n];
    }
  }

  lemma BackfillProxySettles(book: Book, records: Records, book': Book, records': Records, name: string)
    requires name in book && name in book'
    requires ProxyName(name) in records && ProxyName(name) in records'
    requires records'[ProxyName(name)] == records[ProxyName(name)]
    requires book'[name].proxyDeployment == BackfillProxy(book, records, name)[name].proxyDeployment
    ensures BackfillProxy(book', records', name) == book'
  {
  }

  lemma ProxySyncSettles(s: Stores, c: Chain.State, spec: Spec, book: Book, onChain: string, spec': Spec)
    requires spec.proxy.Some? && spec.proxy.value.adminRecord !in {spec.name, ProxyName(spec.name), ImplName(spec.name)}
    requires Chain.HasCode(c, spec.address) && Chain.ReadImplementation(c, spec.address) == Some(onChain)
    requires Reconcile(s.book, spec.name, spec.proxy.value, onChain) == Some(book)
    requires spec.name in book && SameOpt(book[spec.name].implementation, onChain)
    requires var p := PendingAddress(book[spec.name]); p.Some? && p.value != "" ==> !Same(p.value, onChain)
    requires spec' == spec.(argsData := spec'.argsData,
                            proxy := Some(spec.proxy.value.(bookImpl := book[spec.name].implementation,
                                                            bookPending := PendingAddress(book[spec.name]))))
    ensures SyncProxy(SyncProxy(s, c, spec).stores, c, spec') == SyncProxy(s, c, spec)
  {
    var name := spec.name;
    DerivedNamesDistinct(name);
    var aliased := ImportAddress(ImportAddress(s.records, name, spec.address), ProxyName(name), spec.address);
    var s1 := Stores(BackfillProxy(book, aliased, name), ImportProxy(s.records, spec));
    var r := SyncImplementation(s1, c, name, spec.artifact);
    ImplementationSyncFrame(s1, c, name, spec.artifact);
    ImplementationSyncIdempotent(s1, c, name, spec.artifact);
    SettledStays(r.stores.book, name, spec'.proxy.value, onChain);
    ProxyAliasesSettle(s.records, r.stores.records, spec);
    assert ImportProxy(r.stores.records, spec') == ImportProxy(r.stores.records, spec);
    assert ProxyName(name) in s1.records - {ImplName(name)};
    assert (s1.records - {ImplName(name)})[ProxyName(name)] == r.stores.records[ProxyName(name)];
    assert aliased[ProxyName(name)] == s1.records[ProxyName(name)];
    BackfillProxySettles(book, aliased, r.stores.book, r.stores.records, name);
  }

  lemma ProxySyncIdempotent(s: Stores, c: Chain.State, reg: Registration, name: string, artifact: Option<Artifact>)
    requires AdminRecordApart(reg, name)
    requires name in s.book && reg.proxyType.Some? && BuildSpec(reg, name, s.book, artifact).Ok?
    ensures var r := SyncComponent(s, c, reg, name, artifact);
            SyncComponent(r.stores, c, reg, name, artifact) == r
  {
    var spec := BuildSpec(reg, name, s.book, artifact).value;
    var read := Chain.ReadImplementation(c, spec.address);
    if !NoAddress(spec.address) && !spec.addressOnly && read.Some? {
      var onChain := read.value;
      ReconcileSettles(s.book, name, spec.proxy.value, onChain);
      var book := Reconcile(s.book, name, spec.proxy.value, onChain).value;
      SyncKeepsLatest(s, c, spec, book, onChain);
      var book' := SyncProxy(s, c, spec).stores.book;
      RebuiltSpec(reg, name, s.book, book', artifact);
      var spec' := BuildSpec(reg, name, book', artifact).value;
      if Chain.HasCode(c, spec.address) {
        ProxySyncSettles(s, c, spec, book, onChain, spec');
      } else {
        SettledStays(book, name, spec'.proxy.value, onChain);
      }
    }
  }

  /** After the reconcile step a proxy sync only writes metadata. */
  lemma SyncKeepsLatest(s: Stores, c: Chain.State, spec: Spec, book: Book, onChain: string)
    requires spec.proxy.Some? && Chain.ReadImplementation(c, spec.address) == Some(onChain)
    requires spec.name in s.book && Reconcile(s.book, spec.name, spec.proxy.value, onChain) == Some(book)
    requires spec.name in book && book.Keys == s.book.Keys && SameElsewhere(s.book, book, spec.name)
    ensures var book' := SyncProxy(s, c, spec).stores.book;
            && book'.Keys == s.book.Keys && SameElsewhere(s.book, book', spec.name)
            && var e, e' := book[spec.name], book'[spec.name];
               && e'.address == e.address && e'.proxy == e.proxy && e'.proxyAdmin == e.proxyAdmin
               && e'.implementation == e.implementation && e'.deployment == e.deployment
               && PendingAddress(e') == PendingAddress(e)
  {
    if Chain.HasCode(c, spec.address) {
      var name := spec.name;
      var aliased := ImportAddress(ImportAddress(s.records, name, spec.address), ProxyName(name), spec.address);
      var s1 := Stores(BackfillProxy(book, aliased, name), ImportProxy(s.records, spec));
      ImplementationSyncFrame(s1, c, name, spec.artifact);
    }
  }

  /**
   * A sync that can read the chain leaves the entry in step with it: the recorded implementation
   * is the active one, a pending implementation that remains is a different address, and one
   * disappears exactly by having become the active implementation. Other entries stay as they were.
   */
  lemma SyncSafety(s: Stores, c: Chain.State, reg: Registration, name: string, artifact: Option<Artifact>)
    requires name in s.book && reg.proxyType.Some? && BuildSpec(reg, name, s.book, artifact).Ok?
    requires !NoAddress(s.book[name].address) && !reg.addressOnly
    requires Chain.ReadImplementation(c, s.book[name].address).Some?
    ensures var book' := SyncComponent(s, c, reg, name, artifact).stores.book;
            && book'.Keys == s.book.Keys && SameElsewhere(s.book, book', name)
            && var e, e' := s.book[name], book'[name];
               var onChain := Chain.ReadImplementation(c, e.address).value;
               && SameOpt(e'.implementation, onChain)
               && (SameOpt(e.implementation, onChain) && PendingAddress(e') == PendingAddress(e)
                   ==> e'.implementation == e.implementation)
               && (Truthy(PendingAddress(e')) ==> !Same(PendingAddress(e').value, onChain))
               && (Truthy(PendingAddress(e)) ==>
                     if Same(PendingAddress(e).value, onChain)
                     then e'.pending.None? && e'.implementation == PendingAddress(e)
                     else PendingAddress(e') == PendingAddress(e))
               && (e.pending.None? ==> e'.pending.None?)
  {
    var spec := BuildSpec(reg, name, s.book, artifact).value;
    var onChain := Chain.ReadImplementation(c, spec.address).value;
    ReconcileSettles(s.book, name, spec.proxy.value, onChain);
    SyncKeepsLatest(s, c, spec, Reconcile(s.book, name, spec.proxy.value, onChain).value, onChain);
  }
}

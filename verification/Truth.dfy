/** Recorded metadata is true of the address it is recorded for, over every run of the lifecycle. */
module Truth {
  import opened Wrappers
  import opened Addresses
  import opened AddressBook
  import opened Rocketh
  import opened Sync
  import opened Deploy
  import opened SyncProperties
  import opened Lifecycle
  import Chain
  import Upgrade

  /** The code at the address has the recorded fingerprint and arguments. */
  predicate Describes(c: Chain.State, address: string, m: Metadata) {
    Lower(address) in c.code && c.code[Lower(address)] == Chain.Code(m.bytecodeHash, m.argsData)
  }

  /** Metadata with a fingerprint comes with arguments and is true of the address; blank metadata claims nothing. */
  predicate TrueOf(c: Chain.State, address: Option<string>, m: Option<Metadata>) {
    HashOf(m) != "" ==> ArgsOf(m) != "" && address.Some? && Describes(c, address.value, m.value)
  }

  predicate TrueEntry(c: Chain.State, e: Entry) {
    && TrueOf(c, e.implementation, e.implementationDeployment)
    && (e.pending.Some? ==> TrueOf(c, Some(e.pending.value.address), Some(e.pending.value.deployment)))
  }

  /** A record that remembers its transaction tells the truth about its address. */
  predicate TrueRecord(fp: Fingerprint, c: Chain.State, r: Record) {
    r.txHash != "" || r.blockNumber.Some? ==>
      Lower(r.address) in c.code && c.code[Lower(r.address)] == Chain.Code(fp(r.bytecode), r.argsData)
  }

  /**
   * A shared implementation: its metadata is true, its record has the book's address, and the
   * record is never newer than the book.
   */
  predicate TrueShared(s: Stores, c: Chain.State, shared: string) {
    && (shared in s.book ==>
          s.book[shared].proxy.None? && TrueOf(c, Some(s.book[shared].address), s.book[shared].deployment))
    && (shared in s.records ==>
          && shared in s.book && Same(s.records[shared].address, s.book[shared].address)
          && (RealArgs(s.records[shared].argsData) ==> !RockethIsNewer(s.book[shared].deployment, s.records[shared])))
  }

  ghost predicate Truthful(R: Registry, fp: Fingerprint, w: World) {
    && (forall n <- w.stores.book :: TrueEntry(w.chain, w.stores.book[n]))
    && (forall n <- w.stores.book :: Proxied(R, n) ==> w.stores.book[n].proxy.Some?)
    && (forall n <- R :: Proxied(R, n) && ImplName(n) in w.stores.records
          ==> TrueRecord(fp, w.chain, w.stores.records[ImplName(n)]))
    && (forall shared :: IsShared(R, shared) ==> TrueShared(w.stores, w.chain, shared))
  }

  // ---------------------------------------------------------------- sync

  lemma ReconcileKeepsTruth(c: Chain.State, book: Book, name: string, p: ProxySpec, onChain: string)
    requires name in book && TrueEntry(c, book[name])
    ensures var r := Reconcile(book, name, p, onChain);
            r.Some? ==> TrueEntry(c, r.value[name]) && r.value[name].proxy == book[name].proxy
  {
  }

  lemma ImplementationSyncKeepsTruth(fp: Fingerprint, s: Stores, c: Chain.State, name: string,
                                     artifact: Option<Artifact>)
    requires name in s.book && TrueEntry(c, s.book[name]) && s.book[name].proxy.Some?
    requires ImplName(name) in s.records ==> TrueRecord(fp, c, s.records[ImplName(name)])
    ensures var r := SyncImplementation(s, c, name, artifact).stores;
            && TrueEntry(c, r.book[name])
            && (ImplName(name) in r.records ==> TrueRecord(fp, c, r.records[ImplName(name)]))
  {
  }

  predicate SameAt<V(==)>(m: map<string, V>, m': map<string, V>, n: string) {
    (n in m' <==> n in m) && (n in m ==> m'[n] == m[n])
  }

  /** What a proxy's sync does not touch. */
  lemma ProxySyncFrame(s: Stores, c: Chain.State, spec: Spec, n: string)
    requires spec.proxy.Some?
    ensures var r := SyncProxy(s, c, spec).stores;
            && (n != spec.name ==> SameAt(s.book, r.book, n))
            && (n !in {spec.name, ProxyName(spec.name), spec.proxy.value.adminRecord, ImplName(spec.name)} ==>
                  SameAt(s.records, r.records, n))
  {
    var name := spec.name;
    var read := Chain.ReadImplementation(c, spec.address);
    if read.Some? {
      var book := Reconcile(s.book, name, spec.proxy.value, read.value);
      if book.Some? && Chain.HasCode(c, spec.address) {
        var aliased := ImportAddress(ImportAddress(s.records, name, spec.address), ProxyName(name), spec.address);
        var s1 := Stores(BackfillProxy(book.value, aliased, name), ImportProxy(s.records, spec));
        assert n != name ==> SameAt(s.book, s1.book, n);
        ImplementationSyncFrameAt(s1, c, name, spec.artifact, n);
      }
    }
  }

  lemma ImplementationSyncFrameAt(s: Stores, c: Chain.State, name: string, artifact: Option<Artifact>, n: string)
    requires name in s.book
    ensures var r := SyncImplementation(s, c, name, artifact).stores;
            && (n != name ==> SameAt(s.book, r.book, n)) && (n != ImplName(name) ==> SameAt(s.records, r.records, n))
  {
  }

  lemma ProxySyncKeepsTruth(fp: Fingerprint, s: Stores, c: Chain.State, spec: Spec)
    requires spec.proxy.Some? && spec.proxy.value.adminRecord != ImplName(spec.name)
    requires spec.name in s.book ==> TrueEntry(c, s.book[spec.name]) && s.book[spec.name].proxy.Some?
    requires ImplName(spec.name) in s.records ==> TrueRecord(fp, c, s.records[ImplName(spec.name)])
    ensures var r := SyncProxy(s, c, spec).stores;
            && (spec.name in r.book ==> TrueEntry(c, r.book[spec.name]) && r.book[spec.name].proxy.Some?)
            && (ImplName(spec.name) in r.records ==> TrueRecord(fp, c, r.records[ImplName(spec.name)]))
  {
    var name := spec.name;
    var read := Chain.ReadImplementation(c, spec.address);
    if name in s.book && read.Some? {
      ReconcileKeepsTruth(c, s.book, name, spec.proxy.value, read.value);
      var book := Reconcile(s.book, name, spec.proxy.value, read.value);
      if book.Some? && Chain.HasCode(c, spec.address) {
        ImportedKeepsTruth(c, s.records, book.value, spec);
        var aliased := ImportAddress(ImportAddress(s.records, name, spec.address), ProxyName(name), spec.address);
        var s1 := Stores(BackfillProxy(book.value, aliased, name), ImportProxy(s.records, spec));
        ImplementationSyncFrame(s1, c, name, spec.artifact);
        ImplementationSyncKeepsTruth(fp, s1, c, name, spec.artifact);
      }
    }
  }

  /** The proxy's own records and metadata have no bearing on its implementation. */
  lemma ImportedKeepsTruth(c: Chain.State, records: Records, book: Book, spec: Spec)
    requires spec.proxy.Some? && spec.proxy.value.adminRecord != ImplName(spec.name)
    requires spec.name in book && TrueEntry(c, book[spec.name]) && book[spec.name].proxy.Some?
    ensures var aliased := ImportAddress(ImportAddress(records, spec.name, spec.address), ProxyName(spec.name),
                                         spec.address);
            var e := BackfillProxy(book, aliased, spec.name)[spec.name];
            && TrueEntry(c, e) && e.proxy.Some?
            && SameAt(records, ImportProxy(records, spec), ImplName(spec.name))
  {
    DerivedNamesDistinct(spec.name);
  }

  lemma SharedSyncKeepsTruth(s: Stores, c: Chain.State, spec: Spec)
    requires TrueShared(s, c, spec.name) && spec.name in s.book && spec.address == s.book[spec.name].address
    requires spec.argsData in {"", ArgsOf(s.book[spec.name].deployment)}
    ensures var r := SyncPlain(s, c, spec).stores;
            TrueShared(r, c, spec.name) && spec.name in r.book && r.book[spec.name] == s.book[spec.name]
  {
  }

  lemma ProxiedSyncKeepsTruth(R: Registry, fp: Fingerprint, w: World, spec: Spec)
    requires WellFormed(R) && Truthful(R, fp, w) && Proxied(R, spec.name) && spec.proxy.Some?
    requires spec.proxy.value.adminRecord == AdminRecordName(R[spec.name], spec.name)
    ensures Truthful(R, fp, w.(stores := SyncProxy(w.stores, w.chain, spec).stores))
  {
    var s, c, name := w.stores, w.chain, spec.name;
    var r := SyncProxy(s, c, spec).stores;
    RecordsApart(R, name, name);
    ProxySyncKeepsTruth(fp, s, c, spec);
    forall n | n in r.book ensures TrueEntry(c, r.book[n]) && (Proxied(R, n) ==> r.book[n].proxy.Some?) {
      ProxySyncFrame(s, c, spec, n);
    }
    forall n | n in R && Proxied(R, n) && ImplName(n) in r.records ensures TrueRecord(fp, c, r.records[ImplName(n)]) {
      RecordsApart(R, name, n);
      ProxySyncFrame(s, c, spec, ImplName(n));
    }
    forall shared | IsShared(R, shared) ensures TrueShared(r, c, shared) {
      assert TrueShared(s, c, shared) && !IsAlias(R, name, shared);
      ProxySyncFrame(s, c, spec, shared);
    }
  }

  lemma PlainSyncKeepsTruth(R: Registry, fp: Fingerprint, w: World, spec: Spec)
    requires WellFormed(R) && Truthful(R, fp, w) && spec.name in R && R[spec.name].proxyType.None?
    requires spec.name in w.stores.book && spec.address == w.stores.book[spec.name].address
    requires spec.argsData in {"", ArgsOf(w.stores.book[spec.name].ActiveMetadata())}
    ensures Truthful(R, fp, w.(stores := SyncPlain(w.stores, w.chain, spec).stores))
  {
    var s, c := w.stores, w.chain;
    var r := SyncPlain(s, c, spec).stores;
    PlainSyncFrame(s, c, spec);
    forall n | n in R && Proxied(R, n) && ImplName(n) in r.records ensures TrueRecord(fp, c, r.records[ImplName(n)]) {
      assert ImplName(n) !in R;
    }
    forall shared | IsShared(R, shared) ensures TrueShared(r, c, shared) {
      assert TrueShared(s, c, shared);
      if shared == spec.name {
        SharedSyncKeepsTruth(s, c, spec);
      }
    }
  }

  lemma SyncKeepsTruth(R: Registry, fp: Fingerprint, w: World, name: string, own: Option<Artifact>)
    requires WellFormed(R) && Truthful(R, fp, w) && name in R
    ensures Truthful(R, fp, w.(stores := SyncComponent(w.stores, w.chain, R[name], name, own).stores))
  {
    var built := BuildSpec(R[name], name, w.stores.book, own);
    if built.Ok? && !NoAddress(built.value.address) && !built.value.addressOnly {
      if R[name].proxyType.None? {
        PlainSyncKeepsTruth(R, fp, w, built.value);
      } else {
        ProxiedSyncKeepsTruth(R, fp, w, built.value);
      }
    }
  }

  // ---------------------------------------------------------------- deployments and upgrades

  /** The chain may gain code and change its proxies; descriptions that were true stay true. */
  predicate CodeKept(c: Chain.State, c': Chain.State) {
    forall a <- c.code :: a in c'.code && c'.code[a] == c.code[a]
  }

  lemma CodeKeptKeepsTruth(R: Registry, fp: Fingerprint, w: World, c': Chain.State)
    requires Truthful(R, fp, w) && CodeKept(w.chain, c')
    ensures Truthful(R, fp, w.(chain := c'))
  {
    forall shared | IsShared(R, shared) ensures TrueShared(w.stores, c', shared) {
      assert TrueShared(w.stores, w.chain, shared);
    }
  }

  /** A new entry and new records for one contract, true of the chain they are read against. */
  lemma ContractReplaced(R: Registry, fp: Fingerprint, w: World, name: string, e: Entry, records: Records)
    requires WellFormed(R) && Truthful(R, fp, w) && Proxied(R, name)
    requires TrueEntry(w.chain, e) && e.proxy.Some?
    requires forall n :: n !in {name, ProxyName(name), ImplName(name)} ==> SameAt(w.stores.records, records, n)
    requires ImplName(name) in records ==> TrueRecord(fp, w.chain, records[ImplName(name)])
    ensures Truthful(R, fp, w.(stores := Stores(w.stores.book[name := e], records)))
  {
    forall n | n in R && Proxied(R, n) && ImplName(n) in records ensures TrueRecord(fp, w.chain, records[ImplName(n)]) {
      RecordsApart(R, name, n);
      RecordsApart(R, n, n);
      assert n == name || SameAt(w.stores.records, records, ImplName(n));
    }
    forall shared | IsShared(R, shared)
      ensures TrueShared(Stores(w.stores.book[name := e], records), w.chain, shared)
    {
      RecordsApart(R, name, name);
      assert TrueShared(w.stores, w.chain, shared) && !IsAlias(R, name, shared);
      assert SameAt(w.stores.records, records, shared);
    }
  }

  /** Records alone, for one contract. */
  lemma RecordsReplaced(R: Registry, fp: Fingerprint, w: World, name: string, records: Records)
    requires WellFormed(R) && Truthful(R, fp, w) && Proxied(R, name)
    requires forall n :: n !in {name, ProxyName(name), ImplName(name)} ==> SameAt(w.stores.records, records, n)
    requires ImplName(name) in records ==> TrueRecord(fp, w.chain, records[ImplName(name)])
    ensures Truthful(R, fp, w.(stores := w.stores.(records := records)))
  {
    forall n | n in R && Proxied(R, n) && ImplName(n) in records ensures TrueRecord(fp, w.chain, records[ImplName(n)]) {
      RecordsApart(R, name, n);
      RecordsApart(R, n, n);
      assert n == name || SameAt(w.stores.records, records, ImplName(n));
    }
    forall shared | IsShared(R, shared) ensures TrueShared(w.stores.(records := records), w.chain, shared) {
      RecordsApart(R, name, name);
      assert TrueShared(w.stores, w.chain, shared) && !IsAlias(R, name, shared);
      assert SameAt(w.stores.records, records, shared);
    }
  }

  /** Nothing, or a new record, or a new record and the pending entry that goes with it. */
  predicate DeployShape(w: World, name: string, artifact: Artifact, args: string, receipt: Receipt, o: DeployOutcome) {
    var s := w.stores;
    || (o.stores == s && o.chain == w.chain)
    || (&& o.chain == CodeAdded(w.chain, receipt.address, artifact.hash, args)
        && o.stores.records == s.records[ImplName(name) := DeployedRecord(artifact, args, receipt)]
        && (|| o.stores.book == s.book
            || (name in s.book && s.book[name].proxy.Some?
                && o.stores.book == s.book[name := WithPending(s.book[name], receipt.address,
                     Metadata(receipt.txHash, args, artifact.hash, Some(receipt.blockNumber)))])))
  }

  lemma ImplementationDeployedShape(w: World, reg: Registration, name: string, artifact: Artifact,
                                    args: string, receipt: Receipt)
    ensures DeployShape(w, name, artifact, args, receipt,
                        ImplementationDeployed(w.stores, w.chain, reg, name, artifact, args, receipt))
  {
  }

  lemma DeployShapeKeepsTruth(R: Registry, fp: Fingerprint, w: World, name: string,
                              artifact: Artifact, args: string, receipt: Receipt, o: DeployOutcome)
    requires WellFormed(R) && Truthful(R, fp, w) && Proxied(R, name)
    requires GoodArtifact(fp, artifact) && GoodReceipt(w.chain, receipt, args)
    requires DeployShape(w, name, artifact, args, receipt, o)
    ensures Truthful(R, fp, OfDeploy(o))
  {
    var s := w.stores;
    if o.stores != s || o.chain != w.chain {
      CodeKeptKeepsTruth(R, fp, w, o.chain);
      if o.stores.book == s.book {
        RecordsReplaced(R, fp, w.(chain := o.chain), name, o.stores.records);
      } else {
        ContractReplaced(R, fp, w.(chain := o.chain), name, o.stores.book[name], o.stores.records);
      }
    }
  }

  lemma ImplementationDeployKeepsTruth(R: Registry, fp: Fingerprint, w: World, name: string,
                                       artifact: Artifact, args: string, receipt: Receipt)
    requires WellFormed(R) && Truthful(R, fp, w) && Proxied(R, name)
    requires GoodArtifact(fp, artifact) && GoodReceipt(w.chain, receipt, args)
    ensures Truthful(R, fp, OfDeploy(ImplementationDeployed(w.stores, w.chain, R[name], name, artifact, args, receipt)))
  {
    ImplementationDeployedShape(w, R[name], name, artifact, args, receipt);
    DeployShapeKeepsTruth(R, fp, w, name, artifact, args, receipt,
                          ImplementationDeployed(w.stores, w.chain, R[name], name, artifact, args, receipt));
  }

  /** Pending metadata copied from a shared implementation is true of the address it is copied with. */
  lemma FollowingKeepsTruth(R: Registry, fp: Fingerprint, w: World, name: string, shared: string)
    requires WellFormed(R) && Truthful(R, fp, w) && Proxied(R, name) && IsShared(R, shared)
    requires name in w.stores.book && shared in w.stores.book && shared in w.stores.records
    requires w.stores.book[shared].ActiveMetadata().Some?
    ensures var s := w.stores;
            var e := WithPending(s.book[name], s.records[shared].address, s.book[shared].ActiveMetadata().value);
            Truthful(R, fp, w.(stores := s.(book := s.book[name := e])))
  {
    var s := w.stores;
    assert TrueShared(s, w.chain, shared);
    var e := WithPending(s.book[name], s.records[shared].address, s.book[shared].ActiveMetadata().value);
    ContractReplaced(R, fp, w, name, e, s.records);
  }

  lemma UpgradeKeepsTruth(R: Registry, fp: Fingerprint, w: World, name: string)
    requires WellFormed(R) && Truthful(R, fp, w) && Proxied(R, name)
    ensures var book := Upgrade.UpgradeBuilt(w.stores, w.chain, R[name], name).book;
            Truthful(R, fp, w.(stores := w.stores.(book := book)))
  {
    var s := w.stores;
    var shared := Upgrade.SharedRecordName(R[name]);
    var book := Upgrade.UpgradeBuilt(s, w.chain, R[name], name).book;
    if book != s.book {
      assert FollowedBy(R, name, shared.value);
      FollowingKeepsTruth(R, fp, w, name, shared.value);
    }
  }

  lemma LaunchKeepsTruth(R: Registry, fp: Fingerprint, w: World, name: string, implementation: string,
                         metadata: Option<Metadata>, p: ProxyLaunch)
    requires WellFormed(R) && Truthful(R, fp, w) && Proxied(R, name)
    requires GoodReceipt(w.chain, p.receipt, p.argsData) && TrueOf(w.chain, Some(implementation), metadata)
    ensures Truthful(R, fp, OfDeploy(ProxyLaunched(w.stores, w.chain, name, implementation, metadata, p)))
  {
    var o := ProxyLaunched(w.stores, w.chain, name, implementation, metadata, p);
    CodeKeptKeepsTruth(R, fp, w, o.chain);
    DerivedNamesDistinct(name);
    ContractReplaced(R, fp, w.(chain := o.chain), name, o.stores.book[name], o.stores.records);
  }

  lemma DeployProxyKeepsTruth(R: Registry, fp: Fingerprint, w: World, step: Step)
    requires WellFormed(R) && Truthful(R, fp, w) && Enabled(R, fp, w, step) && step.DeployProxyStep?
    ensures Truthful(R, fp, Next(R, w, step))
  {
    var s, c, name, reg := w.stores, w.chain, step.name, R[step.name];
    if reg.sharedImplementation.Some? {
      var shared := reg.sharedImplementation.value;
      assert FollowedBy(R, name, shared);
      if ProxyName(name) in s.records {
        if Next(R, w, step) != w {
          FollowingKeepsTruth(R, fp, w, name, shared);
        }
      } else if shared in s.records {
        LaunchKeepsTruth(R, fp, w, name, s.records[shared].address, None, step.launch);
      }
    } else if step.own.Some? {
      var artifact := step.own.value;
      if ProxyName(name) in s.records {
        ImplementationDeployKeepsTruth(R, fp, w, name, artifact, step.argsData, step.receipt);
      } else {
        OwnLaunchKeepsTruth(R, fp, w, name, artifact, step.argsData, step.receipt, step.launch);
      }
    }
  }

  lemma OwnLaunchKeepsTruth(R: Registry, fp: Fingerprint, w: World, name: string, artifact: Artifact, args: string,
                            receipt: Receipt, p: ProxyLaunch)
    requires WellFormed(R) && Truthful(R, fp, w) && Proxied(R, name) && GoodArtifact(fp, artifact)
    requires GoodReceipt(w.chain, receipt, args) && GoodReceipt(w.chain, p.receipt, p.argsData)
    requires !Same(p.receipt.address, receipt.address)
    ensures Truthful(R, fp, OfDeploy(LaunchedWithOwnImplementation(w.stores, w.chain, name, artifact, args, receipt,
                                                                   p)))
  {
    var record := DeployedRecord(artifact, args, receipt);
    var records := w.stores.records[ImplName(name) := record];
    var c1 := CodeAdded(w.chain, receipt.address, artifact.hash, args);
    CodeKeptKeepsTruth(R, fp, w, c1);
    RecordsReplaced(R, fp, w.(chain := c1), name, records);
    LaunchKeepsTruth(R, fp, World(w.stores.(records := records), c1), name, receipt.address,
                     BuildMetadata(record, artifact.hash), p);
  }

  lemma RecordedShared(s: Stores, c: Chain.State, name: string, artifact: Artifact, args: string, receipt: Receipt,
                       shared: string)
    requires GoodReceipt(c, receipt, args)
    requires TrueShared(s, SharedRecorded(s, c, name, artifact, args, receipt).chain, shared)
    ensures var o := SharedRecorded(s, c, name, artifact, args, receipt);
            TrueShared(o.stores, o.chain, shared)
  {
  }

  /** A shared implementation's own store entries replaced by a fresh deployment. */
  lemma SharedReplaced(R: Registry, fp: Fingerprint, w: World, name: string, artifact: Artifact, args: string,
                       receipt: Receipt)
    requires WellFormed(R) && Truthful(R, fp, w) && IsShared(R, name) && GoodArtifact(fp, artifact)
    requires GoodReceipt(w.chain, receipt, args)
    ensures Truthful(R, fp, OfDeploy(SharedRecorded(w.stores, w.chain, name, artifact, args, receipt)))
  {
    var s, c := w.stores, w.chain;
    var o := SharedRecorded(s, c, name, artifact, args, receipt);
    CodeKeptKeepsTruth(R, fp, w, o.chain);
    forall n | n in R && Proxied(R, n) && ImplName(n) in o.stores.records
      ensures TrueRecord(fp, o.chain, o.stores.records[ImplName(n)])
    {
      RecordsApart(R, n, n);
    }
    forall shared | IsShared(R, shared) ensures TrueShared(o.stores, o.chain, shared) {
      assert TrueShared(s, o.chain, shared);
      RecordedShared(s, c, name, artifact, args, receipt, shared);
    }
    forall n | n in o.stores.book
      ensures TrueEntry(o.chain, o.stores.book[n]) && (Proxied(R, n) ==> o.stores.book[n].proxy.Some?)
    {
      assert n == name ==> R[name].proxyType.None?;
    }
  }

  lemma DeploySharedKeepsTruth(R: Registry, fp: Fingerprint, w: World, name: string, artifact: Artifact, args: string,
                               receipt: Receipt)
    requires WellFormed(R) && Truthful(R, fp, w) && IsShared(R, name) && GoodArtifact(fp, artifact)
    requires GoodReceipt(w.chain, receipt, args)
    ensures Truthful(R, fp, OfDeploy(SharedDeployed(w.stores, w.chain, R[name], name, artifact, args, receipt)))
  {
    SyncKeepsTruth(R, fp, w, name, Some(artifact));
    var before := SyncComponent(w.stores, w.chain, R[name], name, Some(artifact));
    if before.success {
      var d := SharedRecorded(before.stores, w.chain, name, artifact, args, receipt);
      SharedReplaced(R, fp, w.(stores := before.stores), name, artifact, args, receipt);
      SyncKeepsTruth(R, fp, OfDeploy(d), name, Some(artifact));
    }
  }

  /** A contract on its own: its bare entry claims nothing, and no proxy or shared implementation uses its record. */
  lemma DeployStandaloneKeepsTruth(R: Registry, fp: Fingerprint, w: World, name: string, artifact: Artifact,
                                   args: string, receipt: Receipt)
    requires WellFormed(R) && Truthful(R, fp, w) && Standalone(R, name) && GoodReceipt(w.chain, receipt, args)
    ensures Truthful(R, fp, OfDeploy(StandaloneDeployed(w.stores, w.chain, name, artifact, args, receipt)))
  {
    var w' := OfDeploy(StandaloneDeployed(w.stores, w.chain, name, artifact, args, receipt));
    CodeKeptKeepsTruth(R, fp, w, w'.chain);
    forall n | n in R && Proxied(R, n) && ImplName(n) in w'.stores.records
      ensures TrueRecord(fp, w'.chain, w'.stores.records[ImplName(n)])
    {
      assert ImplName(n) !in R;
    }
    forall shared | IsShared(R, shared) ensures TrueShared(w'.stores, w'.chain, shared) {
      assert TrueShared(w.stores, w'.chain, shared) && shared != name;
    }
  }

  lemma StepKeepsTruth(R: Registry, fp: Fingerprint, w: World, step: Step)
    requires WellFormed(R) && Truthful(R, fp, w) && Enabled(R, fp, w, step)
    ensures Truthful(R, fp, Next(R, w, step))
  {
    match step
    case DeployImplementationStep(name, artifact, args, receipt) =>
      ImplementationDeployKeepsTruth(R, fp, w, name, artifact, args, receipt);
    case DeployProxyStep(_, _, _, _, _) => DeployProxyKeepsTruth(R, fp, w, step);
    case DeploySharedStep(name, artifact, args, receipt) =>
      DeploySharedKeepsTruth(R, fp, w, name, artifact, args, receipt);
    case DeployStandaloneStep(name, artifact, args, receipt) =>
      DeployStandaloneKeepsTruth(R, fp, w, name, artifact, args, receipt);
    case UpgradeStep(name) => UpgradeKeepsTruth(R, fp, w, name);
    case SyncStep(name, own) => SyncKeepsTruth(R, fp, w, name, own);
    case ChainStep(chain) => CodeKeptKeepsTruth(R, fp, w, chain);
  }

  /**
   * Over every run, with deployments, upgrades, executions, outside upgrades and syncs in any
   * order: a recorded fingerprint comes with arguments and both are those of the code at the
   * recorded address, for the active and for the pending implementation of every contract.
   */
  lemma {:induction false} MetadataTruth(R: Registry, fp: Fingerprint, w: World, steps: seq<Step>)
    requires WellFormed(R) && Truthful(R, fp, w) && Possible(R, fp, w, steps)
    ensures Truthful(R, fp, After(R, fp, w, steps))
    decreases |steps|
  {
    if steps != [] {
      StepKeepsTruth(R, fp, w, steps[0]);
      MetadataTruth(R, fp, Next(R, w, steps[0]), steps[1..]);
    }
  }

  /** A start without any record or entry is truthful, so the theorem applies to it. */
  lemma TruthFromScratch(R: Registry, fp: Fingerprint, c: Chain.State, steps: seq<Step>)
    requires WellFormed(R) && Possible(R, fp, World(Stores(map[], map[]), c), steps)
    ensures Truthful(R, fp, After(R, fp, World(Stores(map[], map[]), c), steps))
  {
    MetadataTruth(R, fp, World(Stores(map[], map[]), c), steps);
  }

  // ---------------------------------------------------------------- where it fails

  /**
   * Contracts without a proxy have no fingerprint gate before their metadata is backfilled: the
   * local artifact's fingerprint is written for whatever the record deployed. The result is true
   * exactly when the local artifact still has the fingerprint that was deployed.
   */
  lemma PlainBackfillTruth(fp: Fingerprint, s: Stores, c: Chain.State, spec: Spec)
    requires spec.registered && spec.name in s.book && spec.name in s.records && Chain.HasCode(c, spec.address)
    requires spec.address == s.book[spec.name].address && Same(s.records[spec.name].address, spec.address)
    requires s.records[spec.name].txHash != "" && TrueRecord(fp, c, s.records[spec.name])
    requires RealArgs(s.records[spec.name].argsData)
    requires RockethIsNewer(s.book[spec.name].deployment, s.records[spec.name])
    ensures var e := SyncPlain(s, c, spec).stores.book[spec.name];
            && e.deployment.Some?
            && (Describes(c, e.address, e.deployment.value)
                <==> LocalHash(spec.artifact) == fp(s.records[spec.name].bytecode))
  {
  }

  /**
   * The shape of run in which that happens: a contract is deployed by the general script, the
   * artifact is rebuilt, and the contract is synced. The recorded fingerprint is then that of the
   * rebuilt artifact, and is true exactly when the rebuild did not change it.
   */
  lemma RebuildBeforeSync(s: Stores, c: Chain.State, reg: Registration, name: string,
                          deployed: Artifact, rebuilt: Artifact, args: string, receipt: Receipt)
    requires reg.proxyType.None? && !reg.addressOnly && !NoAddress(receipt.address) && RealArgs(args)
    requires !UpToDate(s.records, name, deployed, args)
    ensures var d := StandaloneDeployed(s, c, name, deployed, args, receipt);
            var book := SyncComponent(d.stores, d.chain, reg, name, Some(rebuilt)).stores.book;
            && name in book && book[name].address == receipt.address && book[name].deployment.Some?
            && book[name].deployment.value.bytecodeHash == rebuilt.hash
            && (Describes(d.chain, receipt.address, book[name].deployment.value) <==> rebuilt.hash == deployed.hash)
  {
    var d := StandaloneDeployed(s, c, name, deployed, args, receipt);
    assert BuildSpec(reg, name, d.stores.book, Some(rebuilt)).Ok?;
  }
}

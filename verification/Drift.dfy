/** A local artifact that differs from what is recorded is always noticed by the next deployment. */
module Drift {
  import opened Wrappers
  import opened Addresses
  import opened AddressBook
  import opened Rocketh
  import opened Sync
  import opened Deploy
  import opened SyncProperties
  import opened Lifecycle
  import opened Truth
  import Chain
  import Upgrade

  /** Rocketh's implementation record is the latest implementation of the address book. */
  predicate RecordMatchesBook(fp: Fingerprint, s: Stores, name: string) {
    ImplName(name) in s.records ==>
      && name in s.book
      && var m := s.book[name].LatestMetadata();
         && HashOf(m) != "" && HashOf(m) == fp(s.records[ImplName(name)].bytecode)
         && ArgsOf(m) != "" && ArgsOf(m) == s.records[ImplName(name)].argsData
         && Truthy(s.book[name].LatestAddress())
         && Same(s.book[name].LatestAddress().value, s.records[ImplName(name)].address)
  }

  /** While nothing is pending, the proxy runs the recorded implementation. */
  predicate InStep(w: World, name: string) {
    name in w.stores.book && w.stores.book[name].pending.None? ==>
      var read := Chain.ReadImplementation(w.chain, w.stores.book[name].address);
      read.Some? ==> SameOpt(w.stores.book[name].implementation, read.value)
  }

  ghost predicate Noticed(R: Registry, fp: Fingerprint, w: World, name: string) {
    && Truthful(R, fp, w)
    && RecordMatchesBook(fp, w.stores, name) && InStep(w, name)
    && (name in w.stores.book ==> Lower(w.stores.book[name].address) in w.chain.proxies)
  }

  // ---------------------------------------------------------------- one deployment

  /** What is recorded for the latest implementation is the artifact with these arguments. */
  predicate IsRecorded(s: Stores, name: string, artifact: Artifact, args: string) {
    && name in s.book && Truthy(s.book[name].LatestAddress())
    && HashOf(s.book[name].LatestMetadata()) == artifact.hash && ArgsOf(s.book[name].LatestMetadata()) == args
  }

  /**
   * A deployment that does not fail ends with the latest implementation recorded as the local
   * artifact, and it deploys exactly when that was not so before.
   */
  lemma DeploymentNoticesDrift(R: Registry, fp: Fingerprint, w: World, name: string, artifact: Artifact, args: string,
                               receipt: Receipt)
    requires Truthful(R, fp, w) && Proxied(R, name) && RecordMatchesBook(fp, w.stores, name)
    requires GoodArtifact(fp, artifact) && GoodReceipt(w.chain, receipt, args)
    ensures var o := ImplementationDeployed(w.stores, w.chain, R[name], name, artifact, args, receipt);
            !o.status.Failed? ==>
              && IsRecorded(o.stores, name, artifact, args)
              && (o.status.Deployed? <==> !IsRecorded(w.stores, name, artifact, args))
              && o.stores.book[name].LatestAddress() == Some(o.status.address)
              && RecordMatchesBook(fp, o.stores, name)
  {
  }

  /**
   * From any state of the two stores, in line or not: a deployment that does not fail deploys exactly
   * when neither the book nor rocketh's record has the artifact, and it ends with the artifact
   * recorded exactly when it deployed or that was so before.
   */
  lemma DeploymentRecordsIff(s: Stores, c: Chain.State, reg: Registration, name: string, artifact: Artifact,
                             args: string, receipt: Receipt)
    requires name in s.book ==> s.book[name].proxy.Some?
    requires artifact.hash != "" && GoodReceipt(c, receipt, args)
    ensures var o := ImplementationDeployed(s, c, reg, name, artifact, args, receipt);
            !o.status.Failed? ==>
              && name in s.book
              && var isNew := !RecordedAs(s.book[name], artifact, args)
                 && !UpToDate(s.records, ImplName(name), artifact, args);
                 && (o.status.Deployed? <==> isNew)
                 && (IsRecorded(o.stores, name, artifact, args) <==> IsRecorded(s, name, artifact, args) || isNew)
  {
  }

  /** A deployment that gets as far as deploying, and then fails to read the proxy: nothing will be recorded. */
  predicate CutOff(s: Stores, c: Chain.State, reg: Registration, name: string, artifact: Artifact, args: string) {
    && name in s.records && AdminRecordName(reg, name) in s.records && name in s.book
    && !RecordedAs(s.book[name], artifact, args) && !UpToDate(s.records, ImplName(name), artifact, args)
    && Chain.ReadImplementation(c, s.records[name].address).None?
  }

  /** A deployment keeps rocketh's record in line with the book exactly when it is not cut off. */
  lemma DeploymentMatch(fp: Fingerprint, s: Stores, c: Chain.State, reg: Registration, name: string, artifact: Artifact,
                        args: string, receipt: Receipt)
    requires RecordMatchesBook(fp, s, name) && (name in s.book ==> s.book[name].proxy.Some?)
    requires GoodArtifact(fp, artifact) && GoodReceipt(c, receipt, args)
    ensures RecordMatchesBook(fp, ImplementationDeployed(s, c, reg, name, artifact, args, receipt).stores, name)
       <==> !CutOff(s, c, reg, name, artifact, args)
  {
  }

  // ---------------------------------------------------------------- sync

  /** The sync replaces the implementation by an outside one while nothing is pending. */
  predicate Wipes(s: Stores, c: Chain.State, spec: Spec) {
    && spec.proxy.Some? && spec.name in s.book && s.book[spec.name].pending.None?
    && var read := Chain.ReadImplementation(c, spec.address);
       read.Some? && !SameOpt(s.book[spec.name].implementation, read.value)
  }

  lemma ReconcileKeepsLatest(s: Stores, name: string, p: ProxySpec, onChain: string)
    requires name in s.book && s.book[name].proxy.Some?
    requires p.bookImpl == s.book[name].implementation && p.bookPending == PendingAddress(s.book[name])
    ensures var e, e' := s.book[name], Reconcile(s.book, name, p, onChain).value[name];
            if e.pending.None? && !SameOpt(e.implementation, onChain) then HashOf(e'.LatestMetadata()) == ""
            else e'.LatestMetadata() == e.LatestMetadata() && e'.LatestAddress() == e.LatestAddress()
  {
  }

  lemma ImplementationSyncKeepsMatch(fp: Fingerprint, s: Stores, c: Chain.State, name: string, own: Option<Artifact>)
    requires name in s.book && s.book[name].proxy.Some? && TrueEntry(c, s.book[name])
    requires RecordMatchesBook(fp, s, name) && (own.Some? ==> GoodArtifact(fp, own.value))
    ensures RecordMatchesBook(fp, SyncImplementation(s, c, name, own).stores, name)
  {
  }

  /** Once reconciled, a proxy sync keeps the record in line with the book, or finds the metadata wiped. */
  lemma ReconciledSyncMatch(fp: Fingerprint, s: Stores, c: Chain.State, name: string, own: Option<Artifact>)
    requires name in s.book && s.book[name].proxy.Some? && TrueEntry(c, s.book[name])
    requires own.Some? ==> GoodArtifact(fp, own.value)
    requires RecordMatchesBook(fp, s, name) || HashOf(s.book[name].LatestMetadata()) == ""
    ensures var s' := SyncImplementation(s, c, name, own).stores;
            RecordMatchesBook(fp, s', name) <==> RecordMatchesBook(fp, s, name)
  {
    if RecordMatchesBook(fp, s, name) {
      ImplementationSyncKeepsMatch(fp, s, c, name, own);
    }
  }

  /** The proxy's own records and metadata do not matter here. */
  lemma ProxyRecordsDoNotMatter(fp: Fingerprint, s: Stores, book: Book, spec: Spec)
    requires spec.proxy.Some? && spec.proxy.value.adminRecord != ImplName(spec.name) && spec.name in book
    ensures var aliased := ImportAddress(ImportAddress(s.records, spec.name, spec.address), ProxyName(spec.name),
                                         spec.address);
            var s1 := Stores(BackfillProxy(book, aliased, spec.name), ImportProxy(s.records, spec));
            && (RecordMatchesBook(fp, s1, spec.name) <==> RecordMatchesBook(fp, Stores(book, s.records), spec.name))
            && spec.name in s1.book && s1.book[spec.name].LatestMetadata() == book[spec.name].LatestMetadata()
            && s1.book[spec.name].proxy == book[spec.name].proxy
            && forall c :: TrueEntry(c, book[spec.name]) ==> TrueEntry(c, s1.book[spec.name])
  {
    DerivedNamesDistinct(spec.name);
  }

  /**
   * Syncing a proxy keeps rocketh's record in line with the book, except exactly when it wipes the
   * metadata of an implementation it did not expect while nothing was pending and a record exists.
   */
  lemma ProxySyncMatch(fp: Fingerprint, s: Stores, c: Chain.State, spec: Spec)
    requires spec.proxy.Some? && spec.name in s.book && s.book[spec.name].proxy.Some?
    requires spec.proxy.value.bookImpl == s.book[spec.name].implementation
    requires spec.proxy.value.bookPending == PendingAddress(s.book[spec.name])
    requires spec.proxy.value.adminRecord != ImplName(spec.name)
    requires TrueEntry(c, s.book[spec.name]) && RecordMatchesBook(fp, s, spec.name)
    requires spec.artifact.Some? ==> GoodArtifact(fp, spec.artifact.value)
    ensures var s' := SyncProxy(s, c, spec).stores;
            RecordMatchesBook(fp, s', spec.name) <==> !(Wipes(s, c, spec) && ImplName(spec.name) in s.records)
  {
    var name := spec.name;
    var read := Chain.ReadImplementation(c, spec.address);
    if read.Some? {
      ReconcileKeepsLatest(s, name, spec.proxy.value, read.value);
      ReconcileKeepsTruth(c, s.book, name, spec.proxy.value, read.value);
      var book := Reconcile(s.book, name, spec.proxy.value, read.value).value;
      if Chain.HasCode(c, spec.address) {
        ProxyRecordsDoNotMatter(fp, s, book, spec);
        var aliased := ImportAddress(ImportAddress(s.records, name, spec.address), ProxyName(name), spec.address);
        ReconciledSyncMatch(fp, Stores(BackfillProxy(book, aliased, name), ImportProxy(s.records, spec)), c, name,
                            spec.artifact);
      }
    }
  }

  /** A sync that is in step does not wipe, and leaves the proxy in step. */
  lemma OwnSyncNoticed(R: Registry, fp: Fingerprint, w: World, name: string, own: Option<Artifact>)
    requires WellFormed(R) && Noticed(R, fp, w, name) && Own(R, name)
    requires own.Some? ==> GoodArtifact(fp, own.value)
    ensures Noticed(R, fp, Next(R, w, SyncStep(name, own)), name)
  {
    var s, c := w.stores, w.chain;
    SyncKeepsTruth(R, fp, w, name, own);
    var built := BuildSpec(R[name], name, s.book, own);
    if name in s.book && built.Ok? && !NoAddress(built.value.address) && !built.value.addressOnly {
      var spec := built.value;
      RecordsApart(R, name, name);
      ProxySyncMatch(fp, s, c, spec);
      SyncSafety(s, c, R[name], name, own);
      var book' := SyncProxy(s, c, spec).stores.book;
      ReconcileSettles(s.book, name, spec.proxy.value, Chain.ReadImplementation(c, spec.address).value);
      SyncKeepsLatest(s, c, spec, Reconcile(s.book, name, spec.proxy.value,
                                            Chain.ReadImplementation(c, spec.address).value).value,
                      Chain.ReadImplementation(c, spec.address).value);
    }
  }

  // ---------------------------------------------------------------- the other steps

  /** Nothing that concerns this contract changes. */
  predicate Untouched(w: World, w': World, name: string) {
    && SameAt(w.stores.book, w'.stores.book, name)
    && SameAt(w.stores.records, w'.stores.records, ImplName(name))
    && (forall a <- w.chain.proxies :: a in w'.chain.proxies && w'.chain.proxies[a] == w.chain.proxies[a])
  }

  lemma UntouchedNoticed(R: Registry, fp: Fingerprint, w: World, w': World, name: string)
    requires Noticed(R, fp, w, name) && Truthful(R, fp, w') && Untouched(w, w', name)
    ensures Noticed(R, fp, w', name)
  {
  }

  lemma OtherProxySyncUntouched(w: World, spec: Spec, name: string)
    requires spec.proxy.Some? && spec.name != name
    requires ImplName(name) !in {spec.name, ProxyName(spec.name), spec.proxy.value.adminRecord, ImplName(spec.name)}
    ensures Untouched(w, w.(stores := SyncProxy(w.stores, w.chain, spec).stores), name)
  {
    ProxySyncFrame(w.stores, w.chain, spec, name);
    ProxySyncFrame(w.stores, w.chain, spec, ImplName(name));
  }

  lemma OtherPlainSyncUntouched(w: World, spec: Spec, name: string)
    requires spec.name != name && ImplName(name) != spec.name
    ensures Untouched(w, w.(stores := SyncPlain(w.stores, w.chain, spec).stores), name)
  {
    PlainSyncFrame(w.stores, w.chain, spec);
  }

  lemma OtherSyncUntouched(R: Registry, w: World, other: string, own: Option<Artifact>, name: string)
    requires WellFormed(R) && Own(R, name) && other in R && other != name
    ensures Untouched(w, w.(stores := SyncComponent(w.stores, w.chain, R[other], other, own).stores), name)
  {
    var built := BuildSpec(R[other], other, w.stores.book, own);
    RecordsApart(R, name, name);
    if built.Ok? {
      if built.value.proxy.Some? {
        RecordsApart(R, other, name);
        OtherProxySyncUntouched(w, built.value, name);
      } else {
        OtherPlainSyncUntouched(w, built.value, name);
      }
    }
  }

  /** A launch creates a proxy that runs what the new entry records. */
  lemma OwnLaunchNoticed(R: Registry, fp: Fingerprint, w: World, step: Step)
    requires WellFormed(R) && step.DeployProxyStep? && Own(R, step.name) && Noticed(R, fp, w, step.name)
    requires Enabled(R, fp, w, step) && ProxyName(step.name) !in w.stores.records && step.own.Some?
    ensures Noticed(R, fp, Next(R, w, step), step.name)
  {
    StepKeepsTruth(R, fp, w, step);
    var record := DeployedRecord(step.own.value, step.argsData, step.receipt);
    LaunchNoticed(fp, World(w.stores.(records := w.stores.records[ImplName(step.name) := record]),
                            CodeAdded(w.chain, step.receipt.address, step.own.value.hash, step.argsData)),
                  step.name, step.own.value.hash, step.launch);
  }

  lemma LaunchNoticed(fp: Fingerprint, w: World, name: string, hash: string, p: ProxyLaunch)
    requires ImplName(name) in w.stores.records
    requires var r := w.stores.records[ImplName(name)];
             r.txHash != "" && r.argsData != "" && r.address != "" && hash != "" && hash == fp(r.bytecode)
    ensures var r := w.stores.records[ImplName(name)];
            var o := ProxyLaunched(w.stores, w.chain, name, r.address, BuildMetadata(r, hash), p);
            && RecordMatchesBook(fp, o.stores, name) && InStep(OfDeploy(o), name)
            && name in o.stores.book && Lower(o.stores.book[name].address) in o.chain.proxies
  {
    DerivedNamesDistinct(name);
    LowerTwice(w.stores.records[ImplName(name)].address);
  }

  /** A chain step is orderly when, while nothing is pending, it only moves the proxy to what is recorded. */
  predicate OrderlyChain(w: World, chain: Chain.State, name: string) {
    && InStep(w.(chain := chain), name)
    && (name in w.stores.book ==> Lower(w.stores.book[name].address) in chain.proxies)
  }

  /** A deployment of this contract is orderly when it is not cut off between deploying and recording. */
  predicate Orderly(R: Registry, w: World, step: Step, name: string)
    requires step.ChainStep? || step.name in R
  {
    match step
    case ChainStep(chain) => OrderlyChain(w, chain, name)
    case DeployImplementationStep(n, artifact, args, _) =>
      n == name ==> !CutOff(w.stores, w.chain, R[n], n, artifact, args)
    case DeployProxyStep(n, own, args, _, _) =>
      n == name && own.Some? && ProxyName(n) in w.stores.records ==>
        !CutOff(w.stores, w.chain, R[n], n, own.value, args)
    case _ => true
  }

  // ---------------------------------------------------------------- runs

  lemma OtherDeploymentUntouched(w: World, other: string, name: string, artifact: Artifact, args: string,
                                 receipt: Receipt, o: DeployOutcome)
    requires DeployShape(w, other, artifact, args, receipt, o) && other != name && ImplName(other) != ImplName(name)
    ensures Untouched(w, OfDeploy(o), name)
  {
  }

  lemma OtherLaunchedUntouched(w: World, other: string, name: string, implementation: string,
                               metadata: Option<Metadata>, p: ProxyLaunch)
    requires other != name && ImplName(name) !in {other, ProxyName(other)}
             && Lower(p.receipt.address) !in w.chain.proxies
    ensures Untouched(w, OfDeploy(ProxyLaunched(w.stores, w.chain, other, implementation, metadata, p)), name)
  {
  }

  lemma OtherFollowUntouched(w: World, other: string, name: string, shared: string)
    requires ProxyName(other) in w.stores.records && other != name
    ensures Untouched(w, OfDeploy(SharedFollowed(w.stores, w.chain, other, shared)), name)
  {
  }

  lemma OtherOwnLaunchUntouched(w: World, other: string, name: string, artifact: Artifact, args: string,
                                receipt: Receipt, p: ProxyLaunch)
    requires other != name && ImplName(name) !in {other, ProxyName(other), ImplName(other)}
    requires Lower(p.receipt.address) !in w.chain.proxies
    ensures Untouched(w, OfDeploy(LaunchedWithOwnImplementation(w.stores, w.chain, other, artifact, args, receipt, p)),
                      name)
  {
    var record := DeployedRecord(artifact, args, receipt);
    var w1 := World(w.stores.(records := w.stores.records[ImplName(other) := record]),
                    CodeAdded(w.chain, receipt.address, artifact.hash, args));
    var metadata := BuildMetadata(record, artifact.hash);
    OtherLaunchedUntouched(w1, other, name, receipt.address, metadata, p);
    UntouchedChain(w, w1, OfDeploy(ProxyLaunched(w1.stores, w1.chain, other, receipt.address, metadata, p)), name);
  }

  lemma OtherLaunchUntouched(R: Registry, fp: Fingerprint, w: World, step: Step, name: string)
    requires WellFormed(R) && Own(R, name) && Enabled(R, fp, w, step) && step.DeployProxyStep? && step.name != name
    ensures Untouched(w, Next(R, w, step), name)
  {
    var other, reg := step.name, R[step.name];
    RecordsApart(R, other, name);
    if reg.sharedImplementation.Some? {
      if ProxyName(other) in w.stores.records {
        OtherFollowUntouched(w, other, name, reg.sharedImplementation.value);
      } else if reg.sharedImplementation.value in w.stores.records {
        OtherLaunchedUntouched(w, other, name, w.stores.records[reg.sharedImplementation.value].address, None,
                               step.launch);
      }
    } else if step.own.Some? {
      if ProxyName(other) in w.stores.records {
        ImplementationDeployedShape(w, reg, other, step.own.value, step.argsData, step.receipt);
        OtherDeploymentUntouched(w, other, name, step.own.value, step.argsData, step.receipt,
          ImplementationDeployed(w.stores, w.chain, reg, other, step.own.value, step.argsData, step.receipt));
      } else {
        OtherOwnLaunchUntouched(w, other, name, step.own.value, step.argsData, step.receipt, step.launch);
      }
    }
  }

  lemma UntouchedChain(w: World, w1: World, w2: World, name: string)
    requires Untouched(w, w1, name) && Untouched(w1, w2, name)
    ensures Untouched(w, w2, name)
  {
  }

  /** Sync, record, sync: none of the three concerns another contract. */
  lemma OtherSharedUntouched(R: Registry, w: World, other: string, name: string, artifact: Artifact, args: string,
                             receipt: Receipt)
    requires WellFormed(R) && Own(R, name) && other in R && other != name
    ensures Untouched(w, OfDeploy(SharedDeployed(w.stores, w.chain, R[other], other, artifact, args, receipt)), name)
  {
    var before := SyncComponent(w.stores, w.chain, R[other], other, Some(artifact));
    var w1 := w.(stores := before.stores);
    OtherSyncUntouched(R, w, other, Some(artifact), name);
    if before.success {
      var w2 := OfDeploy(SharedRecorded(w1.stores, w1.chain, other, artifact, args, receipt));
      SharedRecordedUntouched(R, w1, other, name, artifact, args, receipt);
      OtherSyncUntouched(R, w2, other, Some(artifact), name);
      UntouchedChain(w, w1, w2, name);
      var after := SyncComponent(w2.stores, w2.chain, R[other], other, Some(artifact));
      UntouchedChain(w, w2, w2.(stores := after.stores), name);
    }
  }

  lemma SharedRecordedUntouched(R: Registry, w: World, other: string, name: string, artifact: Artifact, args: string,
                                receipt: Receipt)
    requires WellFormed(R) && Own(R, name) && other in R && other != name
    ensures Untouched(w, OfDeploy(SharedRecorded(w.stores, w.chain, other, artifact, args, receipt)), name)
  {
  }

  lemma OtherImplementationUntouched(R: Registry, w: World, other: string, name: string, artifact: Artifact,
                                     args: string, receipt: Receipt)
    requires WellFormed(R) && Own(R, name) && Own(R, other) && other != name
    ensures Untouched(w, OfDeploy(ImplementationDeployed(w.stores, w.chain, R[other], other, artifact, args, receipt)),
                      name)
  {
    RecordsApart(R, other, name);
    ImplementationDeployedShape(w, R[other], other, artifact, args, receipt);
    OtherDeploymentUntouched(w, other, name, artifact, args, receipt,
      ImplementationDeployed(w.stores, w.chain, R[other], other, artifact, args, receipt));
  }

  lemma OtherStandaloneUntouched(R: Registry, w: World, other: string, name: string, artifact: Artifact, args: string,
                                 receipt: Receipt)
    requires WellFormed(R) && Own(R, name) && other in R && other != name
    ensures Untouched(w, OfDeploy(StandaloneDeployed(w.stores, w.chain, other, artifact, args, receipt)), name)
  {
  }

  lemma OtherUpgradeUntouched(R: Registry, w: World, other: string, name: string)
    requires other in R && other != name
    ensures Untouched(w, Next(R, w, UpgradeStep(other)), name)
  {
  }

  lemma OtherStepUntouched(R: Registry, fp: Fingerprint, w: World, step: Step, name: string)
    requires WellFormed(R) && Own(R, name) && Enabled(R, fp, w, step) && !step.ChainStep? && step.name != name
    ensures Untouched(w, Next(R, w, step), name)
  {
    match step
    case DeployImplementationStep(other, artifact, args, receipt) =>
      OtherImplementationUntouched(R, w, other, name, artifact, args, receipt);
    case DeployProxyStep(_, _, _, _, _) => OtherLaunchUntouched(R, fp, w, step, name);
    case DeploySharedStep(other, artifact, args, receipt) =>
      OtherSharedUntouched(R, w, other, name, artifact, args, receipt);
    case DeployStandaloneStep(other, artifact, args, receipt) =>
      OtherStandaloneUntouched(R, w, other, name, artifact, args, receipt);
    case UpgradeStep(other) => OtherUpgradeUntouched(R, w, other, name);
    case SyncStep(other, own) => OtherSyncUntouched(R, w, other, own, name);
    case ChainStep(_) =>
  }

  /** A deployment of its own keeps the contract noticed exactly when it is not cut off before recording. */
  lemma OwnDeploymentNoticed(R: Registry, fp: Fingerprint, w: World, name: string, artifact: Artifact, args: string,
                             receipt: Receipt)
    requires WellFormed(R) && Own(R, name) && Noticed(R, fp, w, name)
    requires GoodArtifact(fp, artifact) && GoodReceipt(w.chain, receipt, args)
    ensures Noticed(R, fp, OfDeploy(ImplementationDeployed(w.stores, w.chain, R[name], name, artifact, args, receipt)),
                    name)
       <==> !CutOff(w.stores, w.chain, R[name], name, artifact, args)
  {
    var o := ImplementationDeployed(w.stores, w.chain, R[name], name, artifact, args, receipt);
    ImplementationDeployKeepsTruth(R, fp, w, name, artifact, args, receipt);
    ImplementationDeployedShape(w, R[name], name, artifact, args, receipt);
    DeploymentMatch(fp, w.stores, w.chain, R[name], name, artifact, args, receipt);
    if !CutOff(w.stores, w.chain, R[name], name, artifact, args) {
      OwnShapeNoticed(fp, w, name, artifact, args, receipt, o);
    }
  }

  lemma OwnShapeNoticed(fp: Fingerprint, w: World, name: string, artifact: Artifact, args: string, receipt: Receipt,
                        o: DeployOutcome)
    requires DeployShape(w, name, artifact, args, receipt, o) && GoodReceipt(w.chain, receipt, args)
    requires RecordMatchesBook(fp, w.stores, name) && InStep(w, name)
    requires RecordMatchesBook(fp, o.stores, name)
    ensures InStep(OfDeploy(o), name)
  {
  }

  lemma OwnStepNoticed(R: Registry, fp: Fingerprint, w: World, step: Step)
    requires WellFormed(R) && !step.ChainStep? && Own(R, step.name) && Noticed(R, fp, w, step.name)
    requires Enabled(R, fp, w, step)
    ensures Noticed(R, fp, Next(R, w, step), step.name) <==> Orderly(R, w, step, step.name)
  {
    match step
    case DeployImplementationStep(name, artifact, args, receipt) =>
      OwnDeploymentNoticed(R, fp, w, name, artifact, args, receipt);
    case DeployProxyStep(name, own, args, receipt, _) =>
      if own.Some? {
        if ProxyName(name) in w.stores.records {
          OwnDeploymentNoticed(R, fp, w, name, own.value, args, receipt);
        } else {
          OwnLaunchNoticed(R, fp, w, step);
        }
      }
    case DeploySharedStep(_, _, _, _) =>
    case DeployStandaloneStep(_, _, _, _) =>
    case UpgradeStep(name) =>
      assert Upgrade.SharedRecordName(R[name]).None?;
      assert Next(R, w, step) == w;
    case SyncStep(name, own) => OwnSyncNoticed(R, fp, w, name, own);
  }

  lemma OtherStepNoticed(R: Registry, fp: Fingerprint, w: World, step: Step, name: string)
    requires WellFormed(R) && Own(R, name) && Noticed(R, fp, w, name) && Enabled(R, fp, w, step)
    requires !step.ChainStep? && step.name != name
    ensures Noticed(R, fp, Next(R, w, step), name)
  {
    StepKeepsTruth(R, fp, w, step);
    OtherStepUntouched(R, fp, w, step, name);
    UntouchedNoticed(R, fp, w, Next(R, w, step), name);
  }

  /** Every step, of this or any other contract or of the chain, keeps drift noticeable exactly when it is orderly. */
  lemma StepNoticed(R: Registry, fp: Fingerprint, w: World, step: Step, name: string)
    requires WellFormed(R) && Own(R, name) && Noticed(R, fp, w, name) && Enabled(R, fp, w, step)
    ensures Noticed(R, fp, Next(R, w, step), name) <==> Orderly(R, w, step, name)
  {
    match step
    case ChainStep(chain) => CodeKeptKeepsTruth(R, fp, w, chain);
    case _ =>
      if step.name == name {
        OwnStepNoticed(R, fp, w, step);
      } else {
        OtherStepNoticed(R, fp, w, step, name);
      }
  }

  ghost predicate OrderlyRun(R: Registry, fp: Fingerprint, w: World, steps: seq<Step>, name: string)
    requires Possible(R, fp, w, steps)
    decreases |steps|
  {
    steps == [] || (Orderly(R, w, steps[0], name) && OrderlyRun(R, fp, Next(R, w, steps[0]), steps[1..], name))
  }

  lemma {:induction false} RunNoticed(R: Registry, fp: Fingerprint, w: World, steps: seq<Step>, name: string)
    requires WellFormed(R) && Own(R, name) && Noticed(R, fp, w, name)
    requires Possible(R, fp, w, steps) && OrderlyRun(R, fp, w, steps, name)
    ensures Noticed(R, fp, After(R, fp, w, steps), name)
    decreases |steps|
  {
    if steps != [] {
      StepNoticed(R, fp, w, steps[0], name);
      RunNoticed(R, fp, Next(R, w, steps[0]), steps[1..], name);
    }
  }

  /**
   * After any run in which the proxy moved only to what was recorded and no deployment was cut off,
   * whatever the other contracts did: a deployment that does not fail leaves the latest
   * implementation recorded as the local artifact, and deploys exactly when that was not so before.
   */
  lemma DriftNeverMasked(R: Registry, fp: Fingerprint, w: World, steps: seq<Step>, name: string,
                         artifact: Artifact, args: string, receipt: Receipt)
    requires WellFormed(R) && Own(R, name) && Noticed(R, fp, w, name)
    requires Possible(R, fp, w, steps) && OrderlyRun(R, fp, w, steps, name)
    requires GoodArtifact(fp, artifact) && GoodReceipt(After(R, fp, w, steps).chain, receipt, args)
    ensures var w' := After(R, fp, w, steps);
            var o := ImplementationDeployed(w'.stores, w'.chain, R[name], name, artifact, args, receipt);
            !o.status.Failed? ==>
              && IsRecorded(o.stores, name, artifact, args)
              && (o.status.Deployed? <==> !IsRecorded(w'.stores, name, artifact, args))
  {
    RunNoticed(R, fp, w, steps, name);
    DeploymentNoticesDrift(R, fp, After(R, fp, w, steps), name, artifact, args, receipt);
  }

  /** An address book as it is checked in: rocketh has no records yet, and no metadata claims a fingerprint falsely. */
  ghost predicate CheckedIn(R: Registry, w: World) {
    && w.stores.records == map[]
    && (forall n <- w.stores.book :: TrueEntry(w.chain, w.stores.book[n]))
    && (forall n <- w.stores.book :: Proxied(R, n) ==> w.stores.book[n].proxy.Some?)
    && (forall shared :: IsShared(R, shared) && shared in w.stores.book ==>
          w.stores.book[shared].proxy.None?
          && TrueOf(w.chain, Some(w.stores.book[shared].address), w.stores.book[shared].deployment))
  }

  /** A checked-in book is a start of such runs for every contract whose proxy exists and is in step. */
  lemma CheckedInNoticed(R: Registry, fp: Fingerprint, w: World, name: string)
    requires CheckedIn(R, w) && InStep(w, name)
    requires name in w.stores.book ==> Lower(w.stores.book[name].address) in w.chain.proxies
    ensures Noticed(R, fp, w, name)
  {
  }

  // ---------------------------------------------------------------- where it fails

  /**
   * A proxy that moved while nothing was pending: the sync wipes the metadata but leaves rocketh's
   * record, so deploying the artifact of that record reports "unchanged" although the proxy runs
   * other code. A deployment is masked exactly when the move was not to the recorded address and the
   * artifact is that of the record, whichever artifact the sync had at hand.
   */
  lemma OutsideMoveMasks(R: Registry, fp: Fingerprint, w: World, chain: Chain.State, name: string,
                         own: Option<Artifact>, artifact: Artifact, args: string, receipt: Receipt)
    requires WellFormed(R) && Own(R, name) && Noticed(R, fp, w, name)
    requires GoodArtifact(fp, artifact) && GoodReceipt(chain, receipt, args)
    requires own.Some? ==> GoodArtifact(fp, own.value)
    requires name in w.stores.book && w.stores.book[name].pending.None? && CodeKept(w.chain, chain)
    requires var e := w.stores.book[name];
             && !R[name].addressOnly && !NoAddress(e.address) && Chain.HasCode(chain, e.address)
             && Chain.ReadImplementation(chain, e.address).Some?
             && BuildSpec(R[name], name, w.stores.book, own).Ok?
    ensures var e := w.stores.book[name];
            var moved := !SameOpt(e.implementation, Chain.ReadImplementation(chain, e.address).value);
            var known := UpToDate(w.stores.records, ImplName(name), artifact, args);
            var s1 := SyncComponent(w.stores, chain, R[name], name, own).stores;
            var o := ImplementationDeployed(s1, chain, R[name], name, artifact, args, receipt);
            && !o.status.Failed?
            && (IsRecorded(o.stores, name, artifact, args) <==> !(moved && known))
            && (o.status.Deployed? <==> if moved then !known else !IsRecorded(s1, name, artifact, args))
            && (known ==>
                  && o.stores == s1
                  && o.status == Unchanged(if moved then w.stores.records[ImplName(name)].address
                                           else e.implementation.value))
  {
    var s := w.stores;
    var onChain := Chain.ReadImplementation(chain, s.book[name].address).value;
    CodeKeptKeepsTruth(R, fp, w, chain);
    RecordsApart(R, name, name);
    MovedProxySync(fp, s, chain, R[name], name, own);
    DeploymentAfterMove(fp, s, SyncComponent(s, chain, R[name], name, own).stores, chain, R[name], name, onChain,
                        artifact, args, receipt);
  }

  /** A record keeps its code and arguments. */
  predicate SameContent(records: Records, records': Records, name: string) {
    name in records ==>
      && name in records'
      && records'[name].bytecode == records[name].bytecode && records'[name].argsData == records[name].argsData
  }

  /**
   * What a sync leaves behind while nothing is pending: in step the record stays in line with the
   * book, after a move only the record stays.
   */
  predicate AfterMove(fp: Fingerprint, s: Stores, c: Chain.State, s1: Stores, reg: Registration, name: string,
                      onChain: string)
    requires name in s.book
  {
    && name in s1.records && AdminRecordName(reg, name) in s1.records && name in s1.book
    && Same(s1.records[name].address, s.book[name].address)
    && s1.book[name].proxy.Some? && TrueEntry(c, s1.book[name])
    && if SameOpt(s.book[name].implementation, onChain)
       then RecordMatchesBook(fp, s1, name) && s1.book[name].LatestAddress() == s.book[name].implementation
            && SameContent(s.records, s1.records, ImplName(name))
       else HashOf(s1.book[name].LatestMetadata()) == "" && SameAt(s.records, s1.records, ImplName(name))
  }

  lemma DeploymentAfterMove(fp: Fingerprint, s: Stores, s1: Stores, c: Chain.State, reg: Registration, name: string,
                            onChain: string, artifact: Artifact, args: string, receipt: Receipt)
    requires name in s.book && AfterMove(fp, s, c, s1, reg, name, onChain)
    requires Chain.ReadImplementation(c, s.book[name].address).Some?
    requires GoodArtifact(fp, artifact) && GoodReceipt(c, receipt, args)
    ensures var moved := !SameOpt(s.book[name].implementation, onChain);
            var known := UpToDate(s.records, ImplName(name), artifact, args);
            var o := ImplementationDeployed(s1, c, reg, name, artifact, args, receipt);
            && !o.status.Failed?
            && (IsRecorded(o.stores, name, artifact, args) <==> !(moved && known))
            && (o.status.Deployed? <==> if moved then !known else !IsRecorded(s1, name, artifact, args))
            && (known ==>
                  && o.stores == s1
                  && o.status == Unchanged(if moved then s.records[ImplName(name)].address
                                           else s.book[name].implementation.value))
  {
    DeploymentRecordsIff(s1, c, reg, name, artifact, args, receipt);
  }

  /** With an up-to-date record, in step it matches the synced book; after a move the metadata is gone. */
  lemma ProxyPartStores(fp: Fingerprint, s: Stores, c: Chain.State, spec: Spec, onChain: string)
    requires spec.proxy.Some? && spec.name in s.book && s.book[spec.name].proxy.Some? && TrueEntry(c, s.book[spec.name])
    requires spec.proxy.value.bookImpl == s.book[spec.name].implementation
    requires spec.proxy.value.bookPending == PendingAddress(s.book[spec.name])
    requires spec.proxy.value.adminRecord != ImplName(spec.name)
    requires s.book[spec.name].pending.None? && RecordMatchesBook(fp, s, spec.name)
    ensures var s1 := BeforeImplementation(s, spec, onChain);
            && spec.name in s1.book && s1.book[spec.name].proxy.Some? && TrueEntry(c, s1.book[spec.name])
            && spec.name in s1.records && spec.proxy.value.adminRecord in s1.records
            && (spec.proxy.value.adminRecord != spec.name ==> Same(s1.records[spec.name].address, spec.address))
            && SameAt(s.records, s1.records, ImplName(spec.name))
            && if SameOpt(s.book[spec.name].implementation, onChain)
               then RecordMatchesBook(fp, s1, spec.name)
                    && s1.book[spec.name].LatestAddress() == s.book[spec.name].implementation
               else HashOf(s1.book[spec.name].LatestMetadata()) == ""
  {
    var name := spec.name;
    DerivedNamesDistinct(name);
    ReconcileKeepsLatest(s, name, spec.proxy.value, onChain);
    ReconcileSettles(s.book, name, spec.proxy.value, onChain);
    ReconcileKeepsTruth(c, s.book, name, spec.proxy.value, onChain);
    ProxyRecordsDoNotMatter(fp, s, Reconcile(s.book, name, spec.proxy.value, onChain).value, spec);
  }

  lemma MovedProxySync(fp: Fingerprint, s: Stores, c: Chain.State, reg: Registration, name: string,
                       own: Option<Artifact>)
    requires reg.proxyType.Some? && !reg.addressOnly && AdminRecordName(reg, name) != ImplName(name)
    requires AdminRecordName(reg, name) != name
    requires name in s.book && s.book[name].proxy.Some? && s.book[name].pending.None? && TrueEntry(c, s.book[name])
    requires RecordMatchesBook(fp, s, name) && (own.Some? ==> GoodArtifact(fp, own.value))
    requires ImplName(name) in s.records ==> TrueRecord(fp, c, s.records[ImplName(name)])
    requires var e := s.book[name];
             && !NoAddress(e.address) && Chain.HasCode(c, e.address) && Chain.ReadImplementation(c, e.address).Some?
             && BuildSpec(reg, name, s.book, own).Ok?
    ensures AfterMove(fp, s, c, SyncComponent(s, c, reg, name, own).stores, reg, name,
                      Chain.ReadImplementation(c, s.book[name].address).value)
  {
    var spec := BuildSpec(reg, name, s.book, own).value;
    var onChain := Chain.ReadImplementation(c, spec.address).value;
    ReconcileSettles(s.book, name, spec.proxy.value, onChain);
    ProxyPartStores(fp, s, c, spec, onChain);
    var s1 := BeforeImplementation(s, spec, onChain);
    assert SyncComponent(s, c, reg, name, own).stores == SyncImplementation(s1, c, name, own).stores;
    ImplementationPartSync(fp, s, s1, c, reg, name, own, onChain);
  }

  /** The last part of such a sync. */
  lemma ImplementationPartSync(fp: Fingerprint, s: Stores, s1: Stores, c: Chain.State, reg: Registration, name: string,
                               own: Option<Artifact>, onChain: string)
    requires name in s.book && name in s1.book && s1.book[name].proxy.Some? && TrueEntry(c, s1.book[name])
    requires name in s1.records && AdminRecordName(reg, name) in s1.records
             && AdminRecordName(reg, name) != ImplName(name)
    requires Same(s1.records[name].address, s.book[name].address)
    requires ImplName(name) in s.records ==> TrueRecord(fp, c, s.records[ImplName(name)])
    requires SameAt(s.records, s1.records, ImplName(name)) && (own.Some? ==> GoodArtifact(fp, own.value))
    requires if SameOpt(s.book[name].implementation, onChain)
             then RecordMatchesBook(fp, s1, name) && s1.book[name].LatestAddress() == s.book[name].implementation
             else HashOf(s1.book[name].LatestMetadata()) == ""
    ensures AfterMove(fp, s, c, SyncImplementation(s1, c, name, own).stores, reg, name, onChain)
  {
    DerivedNamesDistinct(name);
    ImplementationSyncFrame(s1, c, name, own);
    ImplementationSyncKeepsTruth(fp, s1, c, name, own);
    ImplementationSyncFrameAt(s1, c, name, own, name);
    ImplementationSyncFrameAt(s1, c, name, own, AdminRecordName(reg, name));
    if SameOpt(s.book[name].implementation, onChain) {
      ImplementationSyncKeepsMatch(fp, s1, c, name, own);
      ImplementationSyncKeepsRecord(fp, s1, c, name, own);
    }
  }

  /** The sync of the implementation part keeps the code and arguments of a record in line with the book. */
  lemma ImplementationSyncKeepsRecord(fp: Fingerprint, s: Stores, c: Chain.State, name: string, own: Option<Artifact>)
    requires name in s.book && s.book[name].proxy.Some? && RecordMatchesBook(fp, s, name)
    ensures var s' := SyncImplementation(s, c, name, own).stores;
            && s'.book[name].LatestAddress() == s.book[name].LatestAddress()
            && SameContent(s.records, s'.records, ImplName(name))
  {
  }

  /**
   * A deployment and the run after it, from a state in which the artifact is not yet recorded: the
   * artifact is recorded exactly when the proxy could be read and the entry is a proxy's. Otherwise
   * the second run finds rocketh's record up to date, reports "unchanged" and records nothing.
   */
  lemma InterruptedDeploymentMasks(s: Stores, c: Chain.State, c': Chain.State, reg: Registration, name: string,
                                   artifact: Artifact, args: string, receipt: Receipt, again: Receipt)
    requires name in s.book && name in s.records && AdminRecordName(reg, name) in s.records
    requires name != ImplName(name) && AdminRecordName(reg, name) != ImplName(name)
    requires !RecordedAs(s.book[name], artifact, args) && !UpToDate(s.records, ImplName(name), artifact, args)
    requires artifact.hash != "" && GoodReceipt(c, receipt, args)
    ensures var first := ImplementationDeployed(s, c, reg, name, artifact, args, receipt);
            var second := ImplementationDeployed(first.stores, c', reg, name, artifact, args, again);
            var recordable := Chain.ReadImplementation(c, s.records[name].address).Some? && s.book[name].proxy.Some?;
            && (first.status == if recordable then Deployed(receipt.address) else Failed)
            && second == DeployOutcome(first.stores, c', Unchanged(receipt.address))
            && (IsRecorded(second.stores, name, artifact, args) <==> recordable)
            && (!recordable ==> second.stores.book == s.book)
  {
  }
}

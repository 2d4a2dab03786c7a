/** The same for implementations that several proxies share: what the seeding gate is there for. */
module SharedDrift {
  import opened Wrappers
  import opened Addresses
  import opened AddressBook
  import opened Rocketh
  import opened Sync
  import opened Deploy
  import opened SyncProperties
  import opened Lifecycle
  import opened Truth
  import Chain
  import Upgrade

  /** Rocketh's record of a shared implementation is what the address book says is deployed. */
  predicate SharedMatch(fp: Fingerprint, s: Stores, name: string) {
    name in s.records ==>
      && name in s.book
      && var m, r := s.book[name].deployment, s.records[name];
         && HashOf(m) != "" && HashOf(m) == fp(r.bytecode)
         && ArgsOf(m) != "" && ArgsOf(m) == r.argsData && !RockethIsNewer(m, r)
         && Same(s.book[name].address, r.address) && !NoAddress(s.book[name].address)
  }

  /** What the address book records as deployed is the artifact with these arguments. */
  predicate SharedRecordedAs(s: Stores, name: string, artifact: Artifact, args: string) {
    && name in s.book && !NoAddress(s.book[name].address)
    && HashOf(s.book[name].deployment) == artifact.hash && ArgsOf(s.book[name].deployment) == args
  }

  // ---------------------------------------------------------------- one sync

  /** A live contract without a record: the sync has to decide whether to seed one. */
  predicate MissingRecord(s: Stores, c: Chain.State, reg: Registration, name: string) {
    && name !in s.records && name in s.book && !reg.addressOnly
    && !NoAddress(s.book[name].address) && Chain.HasCode(c, s.book[name].address)
  }

  /**
   * The artifact at hand is not known to be the deployed code, and yet the gate lets it through: no
   * fingerprint is stored, or the contract is a prerequisite, or there is no artifact to compare.
   */
  predicate Unverified(fp: Fingerprint, s: Stores, c: Chain.State, reg: Registration, name: string,
                       own: Option<Artifact>) {
    && MissingRecord(s, c, reg, name)
    && var stored := HashOf(s.book[name].deployment);
       || stored == ""
       || (own.None? && stored != fp("0x"))
       || (own.Some? && reg.prerequisite && stored != own.value.hash)
  }

  /** A sync keeps a shared implementation's record in line with the book exactly when it seeds nothing unverified. */
  lemma SharedSyncMatch(fp: Fingerprint, s: Stores, c: Chain.State, reg: Registration, name: string,
                        own: Option<Artifact>)
    requires reg.proxyType.None? && TrueShared(s, c, name) && SharedMatch(fp, s, name)
    requires own.Some? ==> GoodArtifact(fp, own.value)
    ensures SharedMatch(fp, SyncComponent(s, c, reg, name, own).stores, name) <==> !Unverified(fp, s, c, reg, name, own)
  {
  }

  /** Where there is a record in line with the book, a sync changes nothing. */
  lemma SharedSyncSettled(fp: Fingerprint, s: Stores, c: Chain.State, reg: Registration, name: string,
                          own: Option<Artifact>)
    requires reg.proxyType.None? && TrueShared(s, c, name) && SharedMatch(fp, s, name) && name in s.records
    ensures SyncComponent(s, c, reg, name, own).stores == s
  {
  }

  /** What a sync does when there is no record: the entry stays, and a record appears exactly when it seeds. */
  lemma SharedSyncSeeds(s: Stores, c: Chain.State, reg: Registration, name: string, a: Artifact)
    requires reg.proxyType.None? && TrueShared(s, c, name) && name !in s.records && a.bytecode != "" && a.hash != ""
    ensures var o := SyncComponent(s, c, reg, name, Some(a));
            var stored := if name in s.book then HashOf(s.book[name].deployment) else "";
            && o.stores.book == s.book
            && (MissingRecord(s, c, reg, name) && (stored in {"", a.hash} || reg.prerequisite) ==>
                  && o.success && name in o.stores.records
                  && o.stores.records[name].bytecode == a.bytecode
                  && o.stores.records[name].argsData == SeededArgs(s, name)
                  && o.stores.records[name].address == s.book[name].address)
            && (!(MissingRecord(s, c, reg, name) && (stored in {"", a.hash} || reg.prerequisite)) ==>
                  o.stores.records == s.records)
  {
  }

  /** The arguments a seeded record gets. */
  function SeededArgs(s: Stores, name: string): string
    requires name in s.book
  {
    var args := ArgsOf(s.book[name].ActiveMetadata());
    if RealArgs(args) then args else "0x"
  }

  // ---------------------------------------------------------------- one deployment

  /** The script's own first sync makes the artifact look deployed. */
  predicate Masked(fp: Fingerprint, s: Stores, c: Chain.State, reg: Registration, name: string, a: Artifact,
                   args: string) {
    Unverified(fp, s, c, reg, name, Some(a)) && args == SeededArgs(s, name)
  }

  lemma FreshlyRecorded(fp: Fingerprint, s: Stores, c: Chain.State, name: string, a: Artifact, args: string,
                        receipt: Receipt)
    requires GoodArtifact(fp, a) && GoodReceipt(c, receipt, args) && !UpToDate(s.records, name, a, args)
    ensures var d := SharedRecorded(s, c, name, a, args, receipt);
            && d.status == Deployed(receipt.address)
            && SharedMatch(fp, d.stores, name) && name in d.stores.records
            && SharedRecordedAs(d.stores, name, a, args) && TrueShared(d.stores, d.chain, name)
  {
  }

  /** What decides is rocketh's record after the first sync. The last sync changes nothing any more. */
  lemma SharedScript(fp: Fingerprint, s: Stores, c: Chain.State, reg: Registration, name: string, a: Artifact,
                     args: string, receipt: Receipt)
    requires reg.proxyType.None? && TrueShared(s, c, name) && GoodArtifact(fp, a) && GoodReceipt(c, receipt, args)
    ensures var before := SyncComponent(s, c, reg, name, Some(a));
            var o := SharedDeployed(s, c, reg, name, a, args, receipt);
            && (before.success && !UpToDate(before.stores.records, name, a, args) ==>
                  && SharedMatch(fp, o.stores, name) && SharedRecordedAs(o.stores, name, a, args)
                  && (!o.status.Failed? ==> o.status.Deployed?))
            && (before.success && UpToDate(before.stores.records, name, a, args) ==>
                  o.stores == before.stores && !o.status.Deployed?)
            && (!before.success ==> o.stores == before.stores && o.status.Failed?)
  {
    var before := SyncComponent(s, c, reg, name, Some(a));
    if before.success {
      if UpToDate(before.stores.records, name, a, args) {
        if name in s.book {
          PlainSyncIdempotent(s, c, reg, name, Some(a));
        }
      } else {
        FreshlyRecorded(fp, before.stores, c, name, a, args, receipt);
        var d := SharedRecorded(before.stores, c, name, a, args, receipt);
        SharedSyncSettled(fp, d.stores, d.chain, reg, name, Some(a));
      }
    }
  }

  /** When the first sync leaves the artifact looking deployed. */
  lemma LooksDeployed(fp: Fingerprint, s: Stores, c: Chain.State, reg: Registration, name: string, a: Artifact,
                      args: string)
    requires reg.proxyType.None? && !reg.addressOnly && TrueShared(s, c, name) && SharedMatch(fp, s, name)
    requires GoodArtifact(fp, a) && args != ""
    ensures var before := SyncComponent(s, c, reg, name, Some(a));
            var same := SharedRecordedAs(s, name, a, args)
                        && (name in s.records ==> s.records[name].bytecode == a.bytecode);
            && before.stores.book == s.book
            && (before.success ==>
                  (UpToDate(before.stores.records, name, a, args) <==> same || Masked(fp, s, c, reg, name, a, args)))
            && (Masked(fp, s, c, reg, name, a, args) ==> before.success && !SharedRecordedAs(s, name, a, args))
  {
    if name in s.records {
      SharedSyncSettled(fp, s, c, reg, name, Some(a));
    } else {
      SharedSyncSeeds(s, c, reg, name, a);
    }
  }

  /**
   * The script of a shared implementation. Unless its own sync seeds an unverified record with the
   * same arguments, a script that does not fail ends with the artifact recorded; it deploys exactly
   * when that was not recorded before, or rocketh's record holds other creation code with that fingerprint.
   */
  lemma SharedDeploymentNoticesDrift(R: Registry, fp: Fingerprint, w: World, name: string, a: Artifact, args: string,
                                     receipt: Receipt)
    requires WellFormed(R) && Truthful(R, fp, w) && IsShared(R, name) && !R[name].addressOnly
    requires SharedMatch(fp, w.stores, name) && GoodArtifact(fp, a) && GoodReceipt(w.chain, receipt, args)
    ensures var o := SharedDeployed(w.stores, w.chain, R[name], name, a, args, receipt);
            var masked := Masked(fp, w.stores, w.chain, R[name], name, a, args);
            !o.status.Failed? ==>
              && (SharedRecordedAs(o.stores, name, a, args) <==> !masked)
              && (o.status.Deployed? <==>
                    && !masked
                    && (SharedRecordedAs(w.stores, name, a, args) ==>
                          name in w.stores.records && w.stores.records[name].bytecode != a.bytecode))
  {
    assert TrueShared(w.stores, w.chain, name);
    LooksDeployed(fp, w.stores, w.chain, R[name], name, a, args);
    SharedScript(fp, w.stores, w.chain, R[name], name, a, args, receipt);
  }

  /** The script keeps record and book in line exactly when it is not masked. */
  lemma SharedDeployMatch(R: Registry, fp: Fingerprint, w: World, name: string, a: Artifact, args: string,
                          receipt: Receipt)
    requires WellFormed(R) && Truthful(R, fp, w) && IsShared(R, name)
    requires SharedMatch(fp, w.stores, name) && GoodArtifact(fp, a) && GoodReceipt(w.chain, receipt, args)
    ensures SharedMatch(fp, SharedDeployed(w.stores, w.chain, R[name], name, a, args, receipt).stores, name)
       <==> !Masked(fp, w.stores, w.chain, R[name], name, a, args)
  {
    var s, c := w.stores, w.chain;
    assert TrueShared(s, c, name);
    SharedSyncMatch(fp, s, c, R[name], name, Some(a));
    SharedScript(fp, s, c, R[name], name, a, args, receipt);
    if name !in s.records {
      SharedSyncSeeds(s, c, R[name], name, a);
    } else {
      SharedSyncSettled(fp, s, c, R[name], name, Some(a));
    }
  }

  /** How it is masked: a live entry without metadata takes any artifact for deployed, and changes nothing. */
  lemma LegacySeedMasks(fp: Fingerprint, s: Stores, c: Chain.State, reg: Registration, name: string, a: Artifact,
                        receipt: Receipt)
    requires reg.proxyType.None? && MissingRecord(s, c, reg, name) && GoodArtifact(fp, a)
    requires s.book[name].proxy.None? && s.book[name].deployment.None?
    ensures var o := SharedDeployed(s, c, reg, name, a, "0x", receipt);
            && Masked(fp, s, c, reg, name, a, "0x")
            && o.status == Unchanged(s.book[name].address) && o.stores.book == s.book && o.chain == c
            && !SharedRecordedAs(o.stores, name, a, "0x")
  {
    SharedSyncSeeds(s, c, reg, name, a);
    PlainSyncIdempotent(s, c, reg, name, Some(a));
  }

  // ---------------------------------------------------------------- runs

  /** Nothing that concerns this shared implementation changes. */
  predicate Kept(s: Stores, s': Stores, name: string) {
    SameAt(s.book, s'.book, name) && SameAt(s.records, s'.records, name)
  }

  lemma KeptMatch(fp: Fingerprint, s: Stores, s': Stores, name: string)
    requires Kept(s, s', name)
    ensures SharedMatch(fp, s', name) <==> SharedMatch(fp, s, name)
  {
  }

  /** The entry and record names a proxy uses are not the shared implementation's. */
  predicate Apart(R: Registry, other: string, name: string)
    requires other in R
  {
    name !in {other, ProxyName(other), ImplName(other), AdminRecordName(R[other], other)}
  }

  lemma ProxiesApart(R: Registry, other: string, name: string)
    requires WellFormed(R) && Proxied(R, other) && IsShared(R, name)
    ensures Apart(R, other, name)
  {
    assert !IsAlias(R, other, name);
  }

  lemma SyncKept(s: Stores, c: Chain.State, R: Registry, other: string, own: Option<Artifact>, name: string)
    requires other in R && other != name && (Proxied(R, other) ==> Apart(R, other, name))
    ensures Kept(s, SyncComponent(s, c, R[other], other, own).stores, name)
  {
    var built := BuildSpec(R[other], other, s.book, own);
    if built.Ok? {
      if built.value.proxy.Some? {
        ProxySyncFrame(s, c, built.value, name);
      } else {
        PlainSyncFrame(s, c, built.value);
      }
    }
  }

  lemma ImplementationDeployedKept(s: Stores, c: Chain.State, reg: Registration, other: string, artifact: Artifact,
                                   args: string, receipt: Receipt, name: string)
    requires name !in {other, ImplName(other)}
    ensures Kept(s, ImplementationDeployed(s, c, reg, other, artifact, args, receipt).stores, name)
  {
  }

  lemma LaunchedKept(s: Stores, c: Chain.State, other: string, implementation: string, metadata: Option<Metadata>,
                     p: ProxyLaunch, name: string)
    requires name !in {other, ProxyName(other)}
    ensures Kept(s, ProxyLaunched(s, c, other, implementation, metadata, p).stores, name)
  {
  }

  lemma OwnLaunchedKept(s: Stores, c: Chain.State, other: string, artifact: Artifact, args: string, receipt: Receipt,
                        p: ProxyLaunch, name: string)
    requires name !in {other, ProxyName(other), ImplName(other)}
    ensures Kept(s, LaunchedWithOwnImplementation(s, c, other, artifact, args, receipt, p).stores, name)
  {
  }

  lemma FollowedKept(s: Stores, c: Chain.State, other: string, shared: string, name: string)
    requires ProxyName(other) in s.records && other != name
    ensures Kept(s, SharedFollowed(s, c, other, shared).stores, name)
  {
  }

  lemma ProxyDeployedKept(s: Stores, c: Chain.State, R: Registry, other: string, own: Option<Artifact>, args: string,
                          receipt: Receipt, p: ProxyLaunch, name: string)
    requires other in R && Apart(R, other, name)
    ensures Kept(s, ProxyContractDeployed(s, c, R[other], other, own, args, receipt, p).stores, name)
  {
    var reg := R[other];
    if ProxyName(other) in s.records {
      if reg.sharedImplementation.Some? {
        FollowedKept(s, c, other, reg.sharedImplementation.value, name);
      } else if own.Some? {
        ImplementationDeployedKept(s, c, reg, other, own.value, args, receipt, name);
      }
    } else if reg.sharedImplementation.Some? {
      if reg.sharedImplementation.value in s.records {
        LaunchedKept(s, c, other, s.records[reg.sharedImplementation.value].address, None, p, name);
      }
    } else if own.Some? {
      OwnLaunchedKept(s, c, other, own.value, args, receipt, p, name);
    }
  }

  lemma UpgradeKept(s: Stores, c: Chain.State, reg: Registration, other: string, name: string)
    requires other != name
    ensures Kept(s, s.(book := Upgrade.UpgradeBuilt(s, c, reg, other).book), name)
  {
  }

  lemma SharedDeployedKept(s: Stores, c: Chain.State, R: Registry, other: string, a: Artifact, args: string,
                           receipt: Receipt, name: string)
    requires other in R && R[other].proxyType.None? && other != name
    ensures Kept(s, SharedDeployed(s, c, R[other], other, a, args, receipt).stores, name)
  {
    SyncKept(s, c, R, other, Some(a), name);
    var s1 := SyncComponent(s, c, R[other], other, Some(a)).stores;
    var d := SharedRecorded(s1, c, other, a, args, receipt);
    SyncKept(d.stores, d.chain, R, other, Some(a), name);
  }

  lemma StandaloneKept(s: Stores, c: Chain.State, other: string, a: Artifact, args: string, receipt: Receipt,
                       name: string)
    requires other != name
    ensures Kept(s, StandaloneDeployed(s, c, other, a, args, receipt).stores, name)
  {
  }

  /** A step of another contract leaves this one alone. */
  lemma OtherStepKept(R: Registry, fp: Fingerprint, w: World, step: Step, name: string)
    requires WellFormed(R) && IsShared(R, name) && Enabled(R, fp, w, step) && !step.ChainStep? && step.name != name
    ensures Kept(w.stores, Next(R, w, step).stores, name)
  {
    if Proxied(R, step.name) {
      ProxiesApart(R, step.name, name);
    }
    match step
    case DeployImplementationStep(other, artifact, args, receipt) =>
      ImplementationDeployedKept(w.stores, w.chain, R[other], other, artifact, args, receipt, name);
    case DeployProxyStep(other, own, args, receipt, p) =>
      ProxyDeployedKept(w.stores, w.chain, R, other, own, args, receipt, p, name);
    case DeploySharedStep(other, a, args, receipt) =>
      SharedDeployedKept(w.stores, w.chain, R, other, a, args, receipt, name);
    case DeployStandaloneStep(other, a, args, receipt) =>
      StandaloneKept(w.stores, w.chain, other, a, args, receipt, name);
    case UpgradeStep(other) => UpgradeKept(w.stores, w.chain, R[other], other, name);
    case SyncStep(other, own) => SyncKept(w.stores, w.chain, R, other, own, name);
  }

  /** A step is orderly when it does not seed an unverified record for this contract and leave it there. */
  predicate OrderlyShared(R: Registry, fp: Fingerprint, w: World, step: Step, name: string)
    requires step.ChainStep? || step.name in R
  {
    match step
    case SyncStep(n, own) => n == name ==> !Unverified(fp, w.stores, w.chain, R[n], n, own)
    case DeploySharedStep(n, a, args, _) => n == name ==> !Masked(fp, w.stores, w.chain, R[n], n, a, args)
    case _ => true
  }

  lemma OwnStepMatch(R: Registry, fp: Fingerprint, w: World, step: Step)
    requires WellFormed(R) && Truthful(R, fp, w) && Enabled(R, fp, w, step)
    requires !step.ChainStep? && IsShared(R, step.name) && SharedMatch(fp, w.stores, step.name)
    ensures SharedMatch(fp, Next(R, w, step).stores, step.name) <==> OrderlyShared(R, fp, w, step, step.name)
  {
    assert TrueShared(w.stores, w.chain, step.name);
    match step
    case SyncStep(name, own) => SharedSyncMatch(fp, w.stores, w.chain, R[name], name, own);
    case DeploySharedStep(name, a, args, receipt) => SharedDeployMatch(R, fp, w, name, a, args, receipt);
    case _ =>
  }

  /** Every step keeps record and book of a shared implementation in line, exactly when it is orderly. */
  lemma SharedStepMatch(R: Registry, fp: Fingerprint, w: World, step: Step, name: string)
    requires WellFormed(R) && IsShared(R, name) && Truthful(R, fp, w) && SharedMatch(fp, w.stores, name)
    requires Enabled(R, fp, w, step)
    ensures SharedMatch(fp, Next(R, w, step).stores, name) <==> OrderlyShared(R, fp, w, step, name)
  {
    assert TrueShared(w.stores, w.chain, name);
    match step
    case ChainStep(_) =>
    case _ =>
      if step.name == name {
        OwnStepMatch(R, fp, w, step);
      } else {
        OtherStepKept(R, fp, w, step, name);
        KeptMatch(fp, w.stores, Next(R, w, step).stores, name);
      }
  }

  ghost predicate OrderlySharedRun(R: Registry, fp: Fingerprint, w: World, steps: seq<Step>, name: string)
    requires Possible(R, fp, w, steps)
    decreases |steps|
  {
    steps == []
    || (OrderlyShared(R, fp, w, steps[0], name) && OrderlySharedRun(R, fp, Next(R, w, steps[0]), steps[1..], name))
  }

  lemma {:induction false} SharedRunMatch(R: Registry, fp: Fingerprint, w: World, steps: seq<Step>, name: string)
    requires WellFormed(R) && IsShared(R, name) && Truthful(R, fp, w) && SharedMatch(fp, w.stores, name)
    requires Possible(R, fp, w, steps) && OrderlySharedRun(R, fp, w, steps, name)
    ensures var w' := After(R, fp, w, steps); Truthful(R, fp, w') && SharedMatch(fp, w'.stores, name)
    decreases |steps|
  {
    if steps != [] {
      StepKeepsTruth(R, fp, w, steps[0]);
      SharedStepMatch(R, fp, w, steps[0], name);
      SharedRunMatch(R, fp, Next(R, w, steps[0]), steps[1..], name);
    }
  }

  /**
   * After any run, with deployments, upgrades, executions and syncs of all contracts in any order,
   * in which no sync seeded an unverified record: the script of a shared implementation, unless it
   * fails or its own sync does that, ends with the artifact recorded as deployed.
   */
  lemma SharedDriftNeverMasked(R: Registry, fp: Fingerprint, w: World, steps: seq<Step>, name: string, a: Artifact,
                               args: string, receipt: Receipt)
    requires WellFormed(R) && IsShared(R, name) && !R[name].addressOnly
    requires Truthful(R, fp, w) && SharedMatch(fp, w.stores, name)
    requires Possible(R, fp, w, steps) && OrderlySharedRun(R, fp, w, steps, name)
    requires GoodArtifact(fp, a) && GoodReceipt(After(R, fp, w, steps).chain, receipt, args)
    ensures var w' := After(R, fp, w, steps);
            var o := SharedDeployed(w'.stores, w'.chain, R[name], name, a, args, receipt);
            var masked := Masked(fp, w'.stores, w'.chain, R[name], name, a, args);
            !o.status.Failed? ==>
              && (SharedRecordedAs(o.stores, name, a, args) <==> !masked)
              && (o.status.Deployed? <==>
                    && !masked
                    && (SharedRecordedAs(w'.stores, name, a, args) ==>
                          name in w'.stores.records && w'.stores.records[name].bytecode != a.bytecode))
  {
    SharedRunMatch(R, fp, w, steps, name);
    SharedDeploymentNoticesDrift(R, fp, After(R, fp, w, steps), name, a, args, receipt);
  }

  // ---------------------------------------------------------------- the proxies behind it

  /** The proxy runs the artifact, or has it pending at an address where the chain has it. */
  predicate RunsOrAwaits(s: Stores, c: Chain.State, name: string, proxy: string, a: Artifact, args: string) {
    || (&& Chain.ReadImplementation(c, proxy).Some?
        && var impl := Lower(Chain.ReadImplementation(c, proxy).value);
           impl in c.code && c.code[impl] == Chain.Code(a.hash, args))
    || (&& name in s.book && s.book[name].pending.Some?
        && var p := s.book[name].pending.value;
           && p.deployment.bytecodeHash == a.hash && p.deployment.argsData == args
           && Describes(c, p.address, p.deployment))
  }

  lemma FollowedRunsOrAwaits(fp: Fingerprint, s: Stores, c: Chain.State, name: string, follower: string, a: Artifact,
                             args: string)
    requires TrueShared(s, c, name) && SharedMatch(fp, s, name) && SharedRecordedAs(s, name, a, args) && a.hash != ""
    requires ProxyName(follower) in s.records
    ensures var o := SharedFollowed(s, c, follower, name);
            !o.status.Failed? ==>
              && o.stores.records == s.records
              && RunsOrAwaits(o.stores, o.chain, follower, s.records[ProxyName(follower)].address, a, args)
  {
  }

  lemma LaunchedRuns(fp: Fingerprint, s: Stores, c: Chain.State, name: string, follower: string, a: Artifact,
                     args: string, p: ProxyLaunch)
    requires TrueShared(s, c, name) && SharedMatch(fp, s, name) && SharedRecordedAs(s, name, a, args) && a.hash != ""
    requires name in s.records && GoodReceipt(c, p.receipt, p.argsData)
    ensures var o := ProxyLaunched(s, c, follower, s.records[name].address, None, p);
            && ProxyName(follower) in o.stores.records
            && o.stores.records[ProxyName(follower)].address == p.receipt.address
            && RunsOrAwaits(o.stores, o.chain, follower, p.receipt.address, a, args)
  {
    DerivedNamesDistinct(follower);
    LowerTwice(s.records[name].address);
  }

  /** A proxy behind an implementation with the artifact recorded ends up running it, or with it pending. */
  lemma FollowerGetsTheArtifact(R: Registry, fp: Fingerprint, w: World, name: string, a: Artifact, args: string,
                                step: Step)
    requires WellFormed(R) && Truthful(R, fp, w) && SharedMatch(fp, w.stores, name)
    requires SharedRecordedAs(w.stores, name, a, args) && a.hash != ""
    requires Enabled(R, fp, w, step) && step.DeployProxyStep? && R[step.name].sharedImplementation == Some(name)
    ensures var o := ProxyContractDeployed(w.stores, w.chain, R[step.name], step.name, step.own, step.argsData,
                                           step.receipt, step.launch);
            !o.status.Failed? ==>
              && ProxyName(step.name) in o.stores.records
              && RunsOrAwaits(o.stores, o.chain, step.name, o.stores.records[ProxyName(step.name)].address, a, args)
  {
    assert FollowedBy(R, step.name, name);
    assert TrueShared(w.stores, w.chain, name);
    if ProxyName(step.name) in w.stores.records {
      FollowedRunsOrAwaits(fp, w.stores, w.chain, name, step.name, a, args);
    } else if name in w.stores.records {
      LaunchedRuns(fp, w.stores, w.chain, name, step.name, a, args, step.launch);
    }
  }

  /**
   * What the gate is for, end to end: after any run that seeds nothing unverified, the script of the
   * shared implementation followed by the script of a proxy behind it, if neither fails, leaves that
   * proxy running the local artifact, or with it pending at an address where the chain has it.
   */
  lemma ArtifactReachesProxies(R: Registry, fp: Fingerprint, w: World, steps: seq<Step>, deploy: Step, follow: Step)
    requires WellFormed(R) && deploy.DeploySharedStep? && IsShared(R, deploy.name) && !R[deploy.name].addressOnly
    requires Truthful(R, fp, w) && SharedMatch(fp, w.stores, deploy.name)
    requires Possible(R, fp, w, steps) && OrderlySharedRun(R, fp, w, steps, deploy.name)
    requires var w' := After(R, fp, w, steps);
             && Enabled(R, fp, w', deploy) && Enabled(R, fp, Next(R, w', deploy), follow)
             && !Masked(fp, w'.stores, w'.chain, R[deploy.name], deploy.name, deploy.artifact, deploy.argsData)
             && !SharedDeployed(w'.stores, w'.chain, R[deploy.name], deploy.name, deploy.artifact, deploy.argsData,
                                deploy.receipt).status.Failed?
    requires follow.DeployProxyStep? && R[follow.name].sharedImplementation == Some(deploy.name)
    ensures var w1 := Next(R, After(R, fp, w, steps), deploy);
            var o := ProxyContractDeployed(w1.stores, w1.chain, R[follow.name], follow.name, follow.own,
                                           follow.argsData,
                                           follow.receipt, follow.launch);
            !o.status.Failed? ==>
              && ProxyName(follow.name) in o.stores.records
              && RunsOrAwaits(o.stores, o.chain, follow.name, o.stores.records[ProxyName(follow.name)].address,
                              deploy.artifact, deploy.argsData)
  {
    var w' := After(R, fp, w, steps);
    SharedRunMatch(R, fp, w, steps, deploy.name);
    SharedDeploymentNoticesDrift(R, fp, w', deploy.name, deploy.artifact, deploy.argsData, deploy.receipt);
    StepKeepsTruth(R, fp, w', deploy);
    SharedStepMatch(R, fp, w', deploy, deploy.name);
    FollowerGetsTheArtifact(R, fp, Next(R, w', deploy), deploy.name, deploy.artifact, deploy.argsData, follow);
  }
}

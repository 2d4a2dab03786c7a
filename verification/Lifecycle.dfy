/** The upgrade lifecycle as a state machine: the steps of the deployment scripts, in any order. */
module Lifecycle {
  import opened Wrappers
  import opened Addresses
  import opened Rocketh
  import opened Sync
  import opened Deploy
  import Chain
  import Upgrade

  type Registry = map<string, Registration>

  datatype World = World(stores: Stores, chain: Chain.State)

  /**
   * The fingerprint that goes with linked creation bytecode. That there is one assumes that the code of
   * a library at an address does not change: linked bytecode names the address, the fingerprint depends
   * on the code.
   */
  type Fingerprint = string -> string

  datatype Step =
    | DeployImplementationStep(name: string, artifact: Artifact, argsData: string, receipt: Receipt)
    | DeployProxyStep(name: string, own: Option<Artifact>, argsData: string, receipt: Receipt, launch: ProxyLaunch)
    | DeploySharedStep(name: string, artifact: Artifact, argsData: string, receipt: Receipt)
    | DeployStandaloneStep(name: string, artifact: Artifact, argsData: string, receipt: Receipt)
    | UpgradeStep(name: string)
    | SyncStep(name: string, own: Option<Artifact>)
    /** Executing bundles, or any upgrade made outside the scripts: proxies change, and code may appear. */
    | ChainStep(chain: Chain.State)

  function OfDeploy(o: DeployOutcome): World { World(o.stores, o.chain) }

  function Next(R: Registry, w: World, step: Step): World
    requires step.ChainStep? || step.name in R
  {
    match step
    case DeployImplementationStep(name, artifact, args, receipt) =>
      OfDeploy(ImplementationDeployed(w.stores, w.chain, R[name], name, artifact, args, receipt))
    case DeployProxyStep(name, own, args, receipt, launch) =>
      OfDeploy(ProxyContractDeployed(w.stores, w.chain, R[name], name, own, args, receipt, launch))
    case DeploySharedStep(name, artifact, args, receipt) =>
      OfDeploy(SharedDeployed(w.stores, w.chain, R[name], name, artifact, args, receipt))
    case DeployStandaloneStep(name, artifact, args, receipt) =>
      OfDeploy(StandaloneDeployed(w.stores, w.chain, name, artifact, args, receipt))
    case UpgradeStep(name) =>
      w.(stores := w.stores.(book := Upgrade.UpgradeBuilt(w.stores, w.chain, R[name], name).book))
    case SyncStep(name, own) => w.(stores := SyncComponent(w.stores, w.chain, R[name], name, own).stores)
    case ChainStep(chain) => w.(chain := chain)
  }

  // ---------------------------------------------------------------- the registry

  predicate Proxied(R: Registry, name: string) {
    name in R && R[name].proxyType.Some?
  }

  /** A proxy that has its own implementation. */
  predicate Own(R: Registry, name: string) {
    Proxied(R, name) && R[name].sharedImplementation.None?
  }

  predicate FollowedBy(R: Registry, name: string, shared: string) {
    Proxied(R, name)
    && (R[name].sharedImplementation == Some(shared) || Upgrade.SharedRecordName(R[name]) == Some(shared))
  }

  predicate IsShared(R: Registry, shared: string) {
    exists name <- R :: FollowedBy(R, name, shared)
  }

  /** A contract on its own: neither a proxy nor a shared implementation. */
  predicate Standalone(R: Registry, name: string) {
    name in R && R[name].proxyType.None? && !IsShared(R, name)
  }

  /** The records that carry only the address of a proxy or of its admin. */
  predicate IsAlias(R: Registry, name: string, record: string)
    requires name in R
  {
    record in {name, ProxyName(name), AdminRecordName(R[name], name)}
  }

  /**
   * The registry's naming: implementation records are not registry entries, shared implementations
   * are contracts without a proxy, and address-only records are neither.
   */
  ghost predicate WellFormed(R: Registry) {
    && (forall n <- R :: Proxied(R, n) ==> ImplName(n) !in R && AdminRecordName(R[n], n) !in {n, ProxyName(n)})
    && (forall n <- R, m <- R :: Proxied(R, n) && Proxied(R, m) ==> AdminRecordName(R[n], n) != ImplName(m))
    && (forall n <- R, shared :: Proxied(R, n) && IsShared(R, shared) ==> !IsAlias(R, n, shared))
    && (forall shared :: IsShared(R, shared) ==> shared in R && R[shared].proxyType.None?)
  }

  /** No record name of a proxy is the implementation record of another, and shared records are separate. */
  lemma RecordsApart(R: Registry, n: string, m: string)
    requires WellFormed(R) && Proxied(R, n) && Proxied(R, m)
    ensures !IsAlias(R, n, ImplName(m)) && !IsShared(R, ImplName(m))
    ensures ImplName(n) == ImplName(m) ==> n == m
  {
    var p, i := ProxyName(n), ImplName(m);
    assert p[|p| - 1] == 'y' && i[|i| - 1] == 'n';
    if ImplName(n) == ImplName(m) {
      assert |n| == |m| && ImplName(n)[..|n|] == n && ImplName(m)[..|m|] == m;
    }
  }

  predicate GoodArtifact(fp: Fingerprint, a: Artifact) {
    a.bytecode != "" && a.hash != "" && a.hash == fp(a.bytecode)
  }

  /** Deployments land at addresses the chain has not used, in a transaction, with encoded arguments. */
  predicate GoodReceipt(c: Chain.State, receipt: Receipt, argsData: string) {
    && !NoAddress(receipt.address) && receipt.txHash != "" && argsData != ""
    && Lower(receipt.address) !in c.code && Lower(receipt.address) !in c.proxies
  }

  predicate Enabled(R: Registry, fp: Fingerprint, w: World, step: Step) {
    match step
    case DeployImplementationStep(name, artifact, args, receipt) =>
      Own(R, name) && GoodArtifact(fp, artifact) && GoodReceipt(w.chain, receipt, args)
    case DeployProxyStep(name, own, args, receipt, launch) =>
      && Proxied(R, name) && (own.Some? ==> GoodArtifact(fp, own.value)) && GoodReceipt(w.chain, receipt, args)
      && GoodReceipt(w.chain, launch.receipt, launch.argsData) && !Same(launch.receipt.address, receipt.address)
    case DeploySharedStep(name, artifact, args, receipt) =>
      IsShared(R, name) && name in R && GoodArtifact(fp, artifact) && GoodReceipt(w.chain, receipt, args)
    case DeployStandaloneStep(name, artifact, args, receipt) =>
      Standalone(R, name) && GoodArtifact(fp, artifact) && GoodReceipt(w.chain, receipt, args)
    case UpgradeStep(name) => Proxied(R, name)
    case SyncStep(name, own) => name in R && (own.Some? ==> GoodArtifact(fp, own.value))
    case ChainStep(chain) => forall a <- w.chain.code :: a in chain.code && chain.code[a] == w.chain.code[a]
  }

  ghost predicate Possible(R: Registry, fp: Fingerprint, w: World, steps: seq<Step>)
    decreases |steps|
  {
    steps == [] || (Enabled(R, fp, w, steps[0]) && Possible(R, fp, Next(R, w, steps[0]), steps[1..]))
  }

  ghost function After(R: Registry, fp: Fingerprint, w: World, steps: seq<Step>): World
    requires Possible(R, fp, w, steps)
    decreases |steps|
  {
    if steps == [] then w else After(R, fp, Next(R, w, steps[0]), steps[1..])
  }
}

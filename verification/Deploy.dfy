/** Deploying implementations and proxies: what each script leaves in the stores and on the chain. */
module Deploy {
  import opened Wrappers
  import opened Addresses
  import opened AddressBook
  import opened Rocketh
  import opened Sync
  import Chain

  datatype Status = Failed | Unchanged(address: string) | Deployed(address: string)

  /** A failed script may already have changed the stores and the chain. */
  datatype DeployOutcome = DeployOutcome(stores: Stores, chain: Chain.State, status: Status)

  /** Metadata of a deployment; refused without a transaction or arguments. */
  function BuildMetadata(r: Record, hash: string): Option<Metadata> {
    if r.txHash == "" || r.argsData == "" then None
    else Some(Metadata(r.txHash, r.argsData, hash, r.blockNumber))
  }

  /** The recorded fingerprint and arguments of the latest implementation are the artifact's. */
  predicate RecordedAs(e: Entry, artifact: Artifact, argsData: string) {
    && HashOf(e.LatestMetadata()) != ""
    && HashOf(e.LatestMetadata()) == artifact.hash
    && (ArgsOf(e.LatestMetadata()) == "" || ArgsOf(e.LatestMetadata()) == argsData)
    && Truthy(e.LatestAddress())
  }

  function WithPending(e: Entry, address: string, metadata: Metadata): Entry {
    e.(pending := Some(Pending(address, metadata)))
  }

  /**
   * Deploy a new implementation unless the address book or rocketh's record already has it, and
   * store it as pending.
   */
  function ImplementationDeployed(s: Stores, c: Chain.State, reg: Registration, name: string,
                                artifact: Artifact, argsData: string, receipt: Receipt): DeployOutcome
  {
    if name !in s.records || AdminRecordName(reg, name) !in s.records || name !in s.book then
      DeployOutcome(s, c, Failed)
    else
      var e := s.book[name];
      if RecordedAs(e, artifact, argsData) then DeployOutcome(s, c, Unchanged(e.LatestAddress().value))
      else if UpToDate(s.records, ImplName(name), artifact, argsData) then
        DeployOutcome(s, c, Unchanged(s.records[ImplName(name)].address))
      else
        var s1 := s.(records := AfterDeploy(s.records, ImplName(name), artifact, argsData, receipt));
        var c1 := CodeAdded(c, receipt.address, artifact.hash, argsData);
        if Chain.ReadImplementation(c, s.records[name].address).None? then DeployOutcome(s1, c1, Failed)
        else
          match BuildMetadata(s1.records[ImplName(name)], artifact.hash)
          case None => DeployOutcome(s1, c1, Deployed(receipt.address))
          case Some(metadata) =>
            if e.proxy.None? then DeployOutcome(s1, c1, Failed)
            else DeployOutcome(s1.(book := s.book[name := WithPending(e, receipt.address, metadata)]), c1,
                               Deployed(receipt.address))
  }

  /** The deployment inside a shared implementation's script, recorded in the address book only when new. */
  function SharedRecorded(s: Stores, c: Chain.State, name: string,
                          artifact: Artifact, argsData: string, receipt: Receipt): DeployOutcome
  {
    var records := AfterDeploy(s.records, name, artifact, argsData, receipt);
    if UpToDate(s.records, name, artifact, argsData) then
      DeployOutcome(s, c, Unchanged(s.records[name].address))
    else
      var metadata := BuildMetadata(records[name], artifact.hash);
      var book := if metadata.None? then s.book
                  else s.book[name := ContractEntry(receipt.address).(deployment := metadata)];
      DeployOutcome(Stores(book, records), CodeAdded(c, receipt.address, artifact.hash, argsData),
                    Deployed(receipt.address))
  }

  /** The script of a shared implementation: sync, deploy, sync again. */
  function SharedDeployed(s: Stores, c: Chain.State, reg: Registration, name: string,
                        artifact: Artifact, argsData: string, receipt: Receipt): DeployOutcome
  {
    var before := SyncComponent(s, c, reg, name, Some(artifact));
    if !before.success then DeployOutcome(before.stores, c, Failed)
    else
      var d := SharedRecorded(before.stores, c, name, artifact, argsData, receipt);
      var after := SyncComponent(d.stores, d.chain, reg, name, Some(artifact));
      DeployOutcome(after.stores, d.chain, if after.success then d.status else Failed)
  }

  /** The general script for contracts without a proxy: the entry is replaced by a bare one. */
  function StandaloneDeployed(s: Stores, c: Chain.State, name: string,
                              artifact: Artifact, argsData: string, receipt: Receipt): DeployOutcome
  {
    var records := AfterDeploy(s.records, name, artifact, argsData, receipt);
    var address := records[name].address;
    var book := s.book[name := ContractEntry(address)];
    if UpToDate(s.records, name, artifact, argsData)
    then DeployOutcome(Stores(book, records), c, Unchanged(address))
    else DeployOutcome(Stores(book, records), CodeAdded(c, address, artifact.hash, argsData), Deployed(address))
  }

  /** An existing proxy follows its shared implementation: a change of address becomes pending. */
  function SharedFollowed(s: Stores, c: Chain.State, name: string, shared: string): DeployOutcome
    requires ProxyName(name) in s.records
  {
    var proxy := s.records[ProxyName(name)].address;
    var read := Chain.ReadImplementation(c, proxy);
    if shared !in s.records || read.None? then DeployOutcome(s, c, Failed)
    else if Same(read.value, s.records[shared].address) then DeployOutcome(s, c, Unchanged(proxy))
    else if shared !in s.book || s.book[shared].ActiveMetadata().None?
            || name !in s.book || s.book[name].proxy.None? then DeployOutcome(s, c, Failed)
    else
      var metadata := s.book[shared].ActiveMetadata().value;
      var e := WithPending(s.book[name], s.records[shared].address, metadata);
      DeployOutcome(s.(book := s.book[name := e]), c, Unchanged(proxy))
  }

  /** What a fresh proxy needs from outside: its artifact, encoded arguments, receipt and the admin it creates. */
  datatype ProxyLaunch = ProxyLaunch(artifact: Artifact, argsData: string, receipt: Receipt, admin: string)

  function WithProxy(c: Chain.State, p: ProxyLaunch, implementation: string): Chain.State {
    c.(proxies := c.proxies[Lower(p.receipt.address) :=
      Chain.Proxy(Chain.Transparent, p.admin, Lower(implementation), None)])
  }

  function WithMetadata(e: Entry, proxyDeployment: Option<Metadata>,
                        implementationDeployment: Option<Metadata>): Entry {
    var e1 := if proxyDeployment.Some? then e.(proxyDeployment := proxyDeployment) else e;
    if implementationDeployment.Some? then e1.(implementationDeployment := implementationDeployment) else e1
  }

  /** A new proxy in front of `implementation`, and the address-book entry that replaces any old one. */
  function ProxyLaunched(s: Stores, c: Chain.State, name: string, implementation: string,
                       metadata: Option<Metadata>, p: ProxyLaunch): DeployOutcome
  {
    var record := DeployedRecord(p.artifact, p.argsData, p.receipt);
    var entry := WithMetadata(ProxyEntry(p.receipt.address, implementation, p.admin, Chain.Transparent),
                              BuildMetadata(record, p.artifact.runtimeHash), metadata);
    var c1 := CodeAdded(c, p.receipt.address, p.artifact.hash, p.argsData);
    DeployOutcome(
      Stores(s.book[name := entry], s.records[ProxyName(name) := record][name := record]),
      WithProxy(c1, p, implementation),
      Deployed(p.receipt.address))
  }

  /** A fresh proxy's own implementation is deployed whatever the records say. */
  function LaunchedWithOwnImplementation(s: Stores, c: Chain.State, name: string, artifact: Artifact, argsData: string,
                                       receipt: Receipt, p: ProxyLaunch): DeployOutcome
  {
    var record := DeployedRecord(artifact, argsData, receipt);
    ProxyLaunched(s.(records := s.records[ImplName(name) := record]),
                  CodeAdded(c, receipt.address, artifact.hash, argsData),
                  name, receipt.address, BuildMetadata(record, artifact.hash), p)
  }

  function ProxyContractDeployed(s: Stores, c: Chain.State, reg: Registration, name: string, artifact: Option<Artifact>,
                               argsData: string, receipt: Receipt, p: ProxyLaunch): DeployOutcome
  {
    if ProxyName(name) in s.records then
      if reg.sharedImplementation.Some? then SharedFollowed(s, c, name, reg.sharedImplementation.value)
      else if artifact.None? then DeployOutcome(s, c, Failed)
      else ImplementationDeployed(s, c, reg, name, artifact.value, argsData, receipt)
    else if reg.sharedImplementation.Some? then
      var shared := reg.sharedImplementation.value;
      if shared !in s.records then DeployOutcome(s, c, Failed)
      else ProxyLaunched(s, c, name, s.records[shared].address, None, p)
    else if artifact.None? then DeployOutcome(s, c, Failed)
    else LaunchedWithOwnImplementation(s, c, name, artifact.value, argsData, receipt, p)
  }

  // ---------------------------------------------------------------- in place

  class Deployer {
    const book: AddressBookOps
    const env: Environment
    const syncer: Syncer

    constructor (book: AddressBookOps, env: Environment)
      ensures this.book == book && this.env == env && syncer.book == book && syncer.env == env
    {
      this.book, this.env := book, env;
      syncer := new Syncer(book, env);
    }

    ghost function Now(): Stores
      reads book, env
    {
      Stores(book.entries, env.records)
    }

    /** Rocketh's `deploy`: reuse the record, unless told to override, or deploy at a fresh address and overwrite it. */
    method RockethDeploy(c: Chain.State, name: string, artifact: Artifact, argsData: string, receipt: Receipt,
                         alwaysOverride: bool)
      returns (c': Chain.State, record: Record, isNew: bool)
      modifies env
      ensures isNew == (alwaysOverride || !UpToDate(old(env.records), name, artifact, argsData))
      ensures env.records == if isNew then old(env.records)[name := DeployedRecord(artifact, argsData, receipt)]
                             else old(env.records)
      ensures c' == if isNew then CodeAdded(c, receipt.address, artifact.hash, argsData) else c
      ensures name in env.records && record == env.records[name]
    {
      isNew := alwaysOverride || !UpToDate(env.records, name, artifact, argsData);
      c' := c;
      if isNew {
        env.Save(name, DeployedRecord(artifact, argsData, receipt));
        c' := CodeAdded(c, receipt.address, artifact.hash, argsData);
      }
      record := env.records[name];
    }

    method DeployImplementation(c: Chain.State, reg: Registration, name: string,
                                artifact: Artifact, argsData: string, receipt: Receipt)
      returns (c': Chain.State, status: Status)
      modifies book, env
      ensures DeployOutcome(Now(), c', status)
           == ImplementationDeployed(old(Now()), c, reg, name, artifact, argsData, receipt)
    {
      var proxy := GetOrNull(env.records, name);
      var admin := GetOrNull(env.records, AdminRecordName(reg, name));
      if proxy.None? || admin.None? || name !in book.entries {
        return c, Failed;
      }
      var e := book.entries[name];
      if RecordedAs(e, artifact, argsData) {
        return c, Unchanged(e.LatestAddress().value);
      }
      var record, isNew;
      c', record, isNew := RockethDeploy(c, ImplName(name), artifact, argsData, receipt, false);
      if !isNew {
        return c', Unchanged(record.address);
      }
      if Chain.ReadImplementation(c, proxy.value.address).None? {
        return c', Failed;
      }
      status := Deployed(record.address);
      var metadata := BuildMetadata(record, artifact.hash);
      if metadata.Some? {
        var ok := book.SetPendingImplementationWithMetadata(name, record.address, metadata.value);
        if !ok {
          status := Failed;
        }
      }
    }

    method DeployStandaloneContract(c: Chain.State, name: string, artifact: Artifact, argsData: string,
                                    receipt: Receipt)
      returns (c': Chain.State, status: Status)
      modifies book, env
      ensures DeployOutcome(Now(), c', status) == StandaloneDeployed(old(Now()), c, name, artifact, argsData, receipt)
    {
      var record, isNew;
      c', record, isNew := RockethDeploy(c, name, artifact, argsData, receipt, false);
      book.SetContract(name, record.address);
      status := if isNew then Deployed(record.address) else Unchanged(record.address);
    }

    method RecordShared(c: Chain.State, name: string, artifact: Artifact, argsData: string, receipt: Receipt)
      returns (c': Chain.State, status: Status)
      modifies book, env
      ensures DeployOutcome(Now(), c', status) == SharedRecorded(old(Now()), c, name, artifact, argsData, receipt)
    {
      var record, isNew;
      c', record, isNew := RockethDeploy(c, name, artifact, argsData, receipt, false);
      var metadata := BuildMetadata(record, artifact.hash);
      if isNew && metadata.Some? {
        book.SetContract(name, record.address);
        var _ := book.SetDeploymentMetadata(name, metadata.value);
      }
      status := if isNew then Deployed(record.address) else Unchanged(record.address);
    }

    method DeployShared(c: Chain.State, reg: Registration, name: string,
                        artifact: Artifact, argsData: string, receipt: Receipt)
      returns (c': Chain.State, status: Status)
      requires syncer.book == book && syncer.env == env
      modifies book, env
      ensures DeployOutcome(Now(), c', status)
           == SharedDeployed(old(Now()), c, reg, name, artifact, argsData, receipt)
    {
      var ok := syncer.Run(c, reg, name, Some(artifact));
      if !ok {
        return c, Failed;
      }
      c', status := RecordShared(c, name, artifact, argsData, receipt);
      ok := syncer.Run(c', reg, name, Some(artifact));
      if !ok {
        status := Failed;
      }
    }

    method FollowShared(c: Chain.State, name: string, shared: string) returns (status: Status)
      requires ProxyName(name) in env.records
      modifies book
      ensures DeployOutcome(Now(), c, status) == SharedFollowed(old(Now()), c, name, shared)
    {
      var proxy := env.records[ProxyName(name)].address;
      var read := Chain.ReadImplementation(c, proxy);
      var impl := GetOrNull(env.records, shared);
      if impl.None? || read.None? {
        return Failed;
      }
      status := Unchanged(proxy);
      if !Same(read.value, impl.value.address) {
        if shared !in book.entries || book.entries[shared].ActiveMetadata().None? {
          return Failed;
        }
        var metadata := book.entries[shared].ActiveMetadata().value;
        var ok := book.SetPendingImplementationWithMetadata(name, impl.value.address, metadata);
        if !ok {
          status := Failed;
        }
      }
    }

    /** The address-book part: a fresh entry with whatever metadata there is. */
    method RecordProxy(name: string, address: string, implementation: string, admin: string,
                       proxyDeployment: Option<Metadata>, metadata: Option<Metadata>)
      modifies book
      ensures book.entries
           == old(book.entries)[name := WithMetadata(ProxyEntry(address, implementation, admin, Chain.Transparent),
                                                     proxyDeployment, metadata)]
    {
      book.SetProxy(name, address, implementation, admin, Chain.Transparent);
      if proxyDeployment.Some? {
        var _ := book.SetProxyDeploymentMetadata(name, proxyDeployment.value);
      }
      if metadata.Some? {
        var _ := book.SetImplementationDeploymentMetadata(name, metadata.value);
      }
    }

    method LaunchProxy(c: Chain.State, name: string, implementation: string, metadata: Option<Metadata>, p: ProxyLaunch)
      returns (c': Chain.State, status: Status)
      modifies book, env
      ensures DeployOutcome(Now(), c', status) == ProxyLaunched(old(Now()), c, name, implementation, metadata, p)
    {
      var record := DeployedRecord(p.artifact, p.argsData, p.receipt);
      env.Save(ProxyName(name), record);
      c' := CodeAdded(c, p.receipt.address, p.artifact.hash, p.argsData);
      c' := WithProxy(c', p, implementation);
      env.Save(name, record);
      RecordProxy(name, p.receipt.address, implementation, p.admin,
                  BuildMetadata(record, p.artifact.runtimeHash), metadata);
      status := Deployed(p.receipt.address);
    }

    method DeployProxyContract(c: Chain.State, reg: Registration, name: string, artifact: Option<Artifact>,
                               argsData: string, receipt: Receipt, p: ProxyLaunch)
      returns (c': Chain.State, status: Status)
      modifies book, env
      ensures DeployOutcome(Now(), c', status)
           == ProxyContractDeployed(old(Now()), c, reg, name, artifact, argsData, receipt, p)
    {
      c' := c;
      if ProxyName(name) in env.records {
        if reg.sharedImplementation.Some? {
          status := FollowShared(c, name, reg.sharedImplementation.value);
        } else if artifact.None? {
          status := Failed;
        } else {
          c', status := DeployImplementation(c, reg, name, artifact.value, argsData, receipt);
        }
      } else if reg.sharedImplementation.Some? {
        var impl := GetOrNull(env.records, reg.sharedImplementation.value);
        if impl.None? {
          status := Failed;
        } else {
          c', status := LaunchProxy(c, name, impl.value.address, None, p);
        }
      } else if artifact.None? {
        status := Failed;
      } else {
        var impl, isNew;
        c', impl, isNew := RockethDeploy(c, ImplName(name), artifact.value, argsData, receipt, true);
        c', status := LaunchProxy(c', name, impl.address, BuildMetadata(impl, artifact.value.hash), p);
      }
    }
  }
}

/** What launching a proxy records and creates, and that the result can be upgraded. */
module Launch {
  import opened Wrappers
  import opened Addresses
  import opened AddressBook
  import opened Rocketh
  import opened Sync
  import opened Deploy
  import opened Lifecycle
  import opened Convergence
  import Chain

  /** The implementation a fresh proxy gets: the shared one on record, else the one just deployed. */
  function FirstImplementation(s: Stores, reg: Registration, receipt: Receipt): string
    requires reg.sharedImplementation.Some? ==> reg.sharedImplementation.value in s.records
  {
    if reg.sharedImplementation.Some? then s.records[reg.sharedImplementation.value].address else receipt.address
  }

  /** A launch fails exactly when the implementation it needs is missing: the shared record, or the artifact. */
  lemma LaunchFailsIff(s: Stores, c: Chain.State, reg: Registration, name: string, own: Option<Artifact>, args: string,
                       receipt: Receipt, p: ProxyLaunch)
    requires name + "_Proxy" !in s.records
    ensures var o := ProxyContractDeployed(s, c, reg, name, own, args, receipt, p);
            && (o.status.Failed? <==>
                  if reg.sharedImplementation.Some? then reg.sharedImplementation.value !in s.records else own.None?)
            && (o.status.Failed? ==> o.stores == s && o.chain == c)
            && (!o.status.Failed? ==> o.status == Deployed(p.receipt.address))
  {
  }

  /**
   * After a launch the entry names the proxy, the admin that governs it on chain, and the
   * implementation it runs; nothing is pending, and no other entry has changed.
   */
  lemma LaunchedEntry(s: Stores, c: Chain.State, reg: Registration, name: string, own: Option<Artifact>, args: string,
                      receipt: Receipt, p: ProxyLaunch)
    requires name + "_Proxy" !in s.records
    ensures var o := ProxyContractDeployed(s, c, reg, name, own, args, receipt, p);
            !o.status.Failed? ==>
              && name in o.stores.book && o.stores.book - {name} == s.book - {name}
              && var e := o.stores.book[name];
                 && e.address == p.receipt.address && e.proxy == Some(Chain.Transparent)
                 && e.proxyAdmin == Some(p.admin)
                 && Chain.Administers(o.chain, e.proxyAdmin.value, e.address, Chain.Transparent)
                 && e.implementation == Some(FirstImplementation(s, reg, receipt))
                 && Chain.ReadImplementation(o.chain, e.address).Some?
                 && SameButCase(Chain.ReadImplementation(o.chain, e.address).value, e.implementation.value)
                 && e.pending.None? && e.deployment.None?
  {
    if !ProxyContractDeployed(s, c, reg, name, own, args, receipt, p).status.Failed? {
      var impl := FirstImplementation(s, reg, receipt);
      LowerTwice(impl);
      SameIff(Lower(impl), impl);
    }
  }

  /** Its metadata: that of the proxy's deployment, and of the implementation if that was deployed with it. */
  lemma LaunchedMetadata(s: Stores, c: Chain.State, reg: Registration, name: string, own: Option<Artifact>,
                         args: string, receipt: Receipt, p: ProxyLaunch)
    requires name + "_Proxy" !in s.records && p.receipt.txHash != "" && p.argsData != ""
    requires receipt.txHash != "" && args != ""
    ensures var o := ProxyContractDeployed(s, c, reg, name, own, args, receipt, p);
            !o.status.Failed? ==>
              && name in o.stores.book
              && var e := o.stores.book[name];
                 && e.proxyDeployment == Some(Metadata(p.receipt.txHash, p.argsData, p.artifact.runtimeHash,
                                                       Some(p.receipt.blockNumber)))
                 && e.implementationDeployment
                    == if reg.sharedImplementation.Some? then None
                       else Some(Metadata(receipt.txHash, args, own.value.hash, Some(receipt.blockNumber)))
  {
  }

  /** Its records and the code on chain: the proxy's under two names, the implementation's if it was deployed. */
  lemma LaunchedRecords(s: Stores, c: Chain.State, reg: Registration, name: string, own: Option<Artifact>, args: string,
                        receipt: Receipt, p: ProxyLaunch)
    requires name + "_Proxy" !in s.records && !Same(p.receipt.address, receipt.address)
    ensures var o := ProxyContractDeployed(s, c, reg, name, own, args, receipt, p);
            var proxy := Record(p.receipt.address, p.artifact.bytecode, p.artifact.runtimeHash, p.argsData,
                                p.receipt.txHash, Some(p.receipt.blockNumber));
            !o.status.Failed? ==>
              && Lower(p.receipt.address) in o.chain.code
              && o.chain.code[Lower(p.receipt.address)] == Chain.Code(p.artifact.hash, p.argsData)
              && if reg.sharedImplementation.Some?
                 then o.stores.records == s.records[name + "_Proxy" := proxy][name := proxy]
                 else && Lower(receipt.address) in o.chain.code
                      && o.chain.code[Lower(receipt.address)] == Chain.Code(own.value.hash, args)
                      && o.stores.records
                         == s.records[name + "_Implementation" :=
                              Record(receipt.address, own.value.bytecode, own.value.runtimeHash, args, receipt.txHash,
                                     Some(receipt.blockNumber))][name + "_Proxy" := proxy][name := proxy]
  {
  }

  /** Once something with code is pending for it, a launched proxy can be upgraded through what was recorded. */
  lemma LaunchedIsReady(R: Registry, s: Stores, c: Chain.State, name: string, own: Option<Artifact>, args: string,
                        receipt: Receipt, p: ProxyLaunch, pending: Pending, c': Chain.State)
    requires name in R && R[name].proxyType == Some(Chain.Transparent) && !R[name].addressOnly
    requires name + "_Proxy" !in s.records && !NoAddress(p.receipt.address) && p.admin != ""
    requires pending.address != "" && Chain.HasCode(c', pending.address)
    requires var o := ProxyContractDeployed(s, c, R[name], name, own, args, receipt, p);
             !o.status.Failed? && c'.proxies == o.chain.proxies
    ensures var o := ProxyContractDeployed(s, c, R[name], name, own, args, receipt, p);
            && name in o.stores.book
            && var book := o.stores.book[name := o.stores.book[name].(pending := Some(pending))];
               Ready(R, o.stores.(book := book), c', name)
  {
    LaunchedEntry(s, c, R[name], name, own, args, receipt, p);
  }
}

/** What each deployment script leaves in the stores and on the chain, spelled out. */
module DeployMeaning {
  import opened Wrappers
  import opened Addresses
  import opened AddressBook
  import opened Rocketh
  import opened Sync
  import opened Deploy
  import Chain

  /** Rocketh's record is of this creation code with these arguments. */
  predicate OnRecord(records: Records, name: string, a: Artifact, args: string) {
    name in records && records[name].bytecode == a.bytecode && records[name].argsData == args
  }

  /** The chain with one more contract. */
  predicate Appeared(c: Chain.State, c': Chain.State, receipt: Receipt, a: Artifact, args: string) {
    c'.proxies == c.proxies && c'.code == c.code[Lower(receipt.address) := Chain.Code(a.hash, args)]
  }

  function FreshRecord(a: Artifact, args: string, receipt: Receipt): Record {
    Record(receipt.address, a.bytecode, a.runtimeHash, args, receipt.txHash, Some(receipt.blockNumber))
  }

  /** The book has the artifact with these arguments as the latest implementation: pending, or else active. */
  predicate InBook(e: Entry, a: Artifact, args: string) {
    var m := if e.pending.Some? then Some(e.pending.value.deployment) else e.implementationDeployment;
    var address := if e.pending.Some? then Some(e.pending.value.address) else e.implementation;
    && m.Some? && m.value.bytecodeHash != "" && m.value.bytecodeHash == a.hash
    && (m.value.argsData == "" || m.value.argsData == args)
    && address.Some? && address.value != ""
  }

  /** What the deployment of an implementation needs to have been synced. */
  predicate Synced(s: Stores, reg: Registration, name: string) {
    && name in s.records && name in s.book
    && (if reg.proxyAdminName.Some? then reg.proxyAdminName.value else name + "_ProxyAdmin") in s.records
  }

  /**
   * The deployment of an implementation: nothing without a sync, nothing if the book or rocketh has
   * the artifact, else new code with its record; and it becomes pending if the proxy can be read.
   */
  lemma ImplementationScript(s: Stores, c: Chain.State, reg: Registration, name: string, a: Artifact, args: string,
                             receipt: Receipt)
    requires name in s.book ==> s.book[name].proxy.Some?
    ensures var o := ImplementationDeployed(s, c, reg, name, a, args, receipt);
            var impl := name + "_Implementation";
            if !Synced(s, reg, name) then o == DeployOutcome(s, c, Failed)
            else
              var e := s.book[name];
              if InBook(e, a, args) then
                o == DeployOutcome(s, c, Unchanged(if e.pending.Some? then e.pending.value.address
                                                   else e.implementation.value))
              else if OnRecord(s.records, impl, a, args) then
                o == DeployOutcome(s, c, Unchanged(s.records[impl].address))
              else
                && Appeared(c, o.chain, receipt, a, args)
                && o.stores.records == s.records[impl := FreshRecord(a, args, receipt)]
                && if Lower(s.records[name].address) !in c.proxies then o.status == Failed && o.stores.book == s.book
                   else
                     && o.status == Deployed(receipt.address)
                     && o.stores.book
                        == if receipt.txHash == "" || args == "" then s.book
                           else s.book[name := e.(pending := Some(Pending(receipt.address,
                                  Metadata(receipt.txHash, args, a.hash, Some(receipt.blockNumber)))))]
  {
  }

  /** The general script: new code unless rocketh has the artifact, and in either case a bare entry. */
  lemma StandaloneScript(s: Stores, c: Chain.State, name: string, a: Artifact, args: string, receipt: Receipt)
    ensures var o := StandaloneDeployed(s, c, name, a, args, receipt);
            && name in o.stores.records
            && o.stores.book
               == s.book[name := Entry(o.stores.records[name].address, None, None, None, None, None, None, None)]
            && if OnRecord(s.records, name, a, args) then
                 o.stores.records == s.records && o.chain == c && o.status == Unchanged(s.records[name].address)
               else
                 && Appeared(c, o.chain, receipt, a, args)
                 && o.stores.records == s.records[name := FreshRecord(a, args, receipt)]
                 && o.status == Deployed(receipt.address)
  {
  }

  /** The deployment of a shared implementation: recorded in the book, with its metadata, only if it is new. */
  lemma SharedDeploymentMeaning(s: Stores, c: Chain.State, name: string, a: Artifact, args: string, receipt: Receipt)
    ensures var o := SharedRecorded(s, c, name, a, args, receipt);
            if OnRecord(s.records, name, a, args) then
              o == DeployOutcome(s, c, Unchanged(s.records[name].address))
            else
              && Appeared(c, o.chain, receipt, a, args)
              && o.stores.records == s.records[name := FreshRecord(a, args, receipt)]
              && o.status == Deployed(receipt.address)
              && o.stores.book
                 == if receipt.txHash == "" || args == "" then s.book
                    else s.book[name := Entry(receipt.address, None, None, None, None,
                           Some(Metadata(receipt.txHash, args, a.hash, Some(receipt.blockNumber))), None, None)]
  {
  }

  /** The script around it: a failed first sync stops it, and a failed second one is reported as a failure. */
  lemma SharedScriptMeaning(s: Stores, c: Chain.State, reg: Registration, name: string, a: Artifact, args: string,
                            receipt: Receipt)
    ensures var o := SharedDeployed(s, c, reg, name, a, args, receipt);
            var first := SyncComponent(s, c, reg, name, Some(a));
            if !first.success then o == DeployOutcome(first.stores, c, Failed)
            else
              var d := SharedRecorded(first.stores, c, name, a, args, receipt);
              var last := SyncComponent(d.stores, d.chain, reg, name, Some(a));
              && o.stores == last.stores && o.chain == d.chain
              && o.status == if last.success then d.status else Failed
  {
  }

  /**
   * A proxy behind a shared implementation: unless it runs the one on record already, whatever the
   * letter case, that one becomes pending with its metadata from the book.
   */
  lemma FollowScript(s: Stores, c: Chain.State, name: string, shared: string)
    requires name + "_Proxy" in s.records
    ensures var o := SharedFollowed(s, c, name, shared);
            var proxy := s.records[name + "_Proxy"].address;
            && o.chain == c && o.stores.records == s.records
            && if shared !in s.records || Lower(proxy) !in c.proxies then o == DeployOutcome(s, c, Failed)
               else if SameButCase(c.proxies[Lower(proxy)].implementation, s.records[shared].address) then
                 o == DeployOutcome(s, c, Unchanged(proxy))
               else if shared !in s.book
                       || (if s.book[shared].proxy.Some? then s.book[shared].implementationDeployment
                           else s.book[shared].deployment).None?
                       || name !in s.book || s.book[name].proxy.None?
               then o == DeployOutcome(s, c, Failed)
               else
                 && o.status == Unchanged(proxy)
                 && o.stores.book == s.book[name := s.book[name].(pending := Some(Pending(
                      s.records[shared].address,
                      (if s.book[shared].proxy.Some? then s.book[shared].implementationDeployment
                       else s.book[shared].deployment).value)))]
  {
    var proxy := s.records[name + "_Proxy"].address;
    if shared in s.records && Lower(proxy) in c.proxies {
      SameIff(c.proxies[Lower(proxy)].implementation, s.records[shared].address);
    }
  }

  /** Which of the four scripts a proxy contract's deployment runs. */
  lemma ProxyScript(s: Stores, c: Chain.State, reg: Registration, name: string, own: Option<Artifact>, args: string,
                    receipt: Receipt, p: ProxyLaunch)
    requires name + "_Proxy" in s.records
    ensures var o := ProxyContractDeployed(s, c, reg, name, own, args, receipt, p);
            o == if reg.sharedImplementation.Some? then SharedFollowed(s, c, name, reg.sharedImplementation.value)
                 else if own.None? then DeployOutcome(s, c, Failed)
                 else ImplementationDeployed(s, c, reg, name, own.value, args, receipt)
  {
  }
}

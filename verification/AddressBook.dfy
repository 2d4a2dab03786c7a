/** The address book: one entry per contract, and the operations that rewrite an entry. */
module AddressBook {
  import opened Wrappers
  import Chain

  /**
   * Deployment metadata. `argsData` is the empty string when it was not captured: the code only
   * ever tests it for truth, so an absent and an empty value behave alike.
   */
  datatype Metadata = Metadata(txHash: string, argsData: string, bytecodeHash: string, blockNumber: Option<nat>)

  datatype Pending = Pending(address: string, deployment: Metadata)

  datatype Entry = Entry(
    address: string,
    proxy: Option<Chain.ProxyType>,
    proxyAdmin: Option<string>,
    implementation: Option<string>,
    pending: Option<Pending>,
    deployment: Option<Metadata>,
    proxyDeployment: Option<Metadata>,
    implementationDeployment: Option<Metadata>)
  {
    /** The metadata of the active code: that of the implementation for a proxy. */
    function ActiveMetadata(): Option<Metadata> {
      if proxy.Some? then implementationDeployment else deployment
    }

    /** The address awaiting activation if there is one, else the active implementation. */
    function LatestAddress(): Option<string> {
      if pending.Some? then Some(pending.value.address) else implementation
    }

    function LatestMetadata(): Option<Metadata> {
      if pending.Some? then Some(pending.value.deployment) else ActiveMetadata()
    }
  }

  type Book = map<string, Entry>

  /** What an external change leaves behind: an empty fingerprint. */
  const WIPED: Metadata := Metadata("", "0x", "", None)

  function ContractEntry(address: string): Entry {
    Entry(address, None, None, None, None, None, None, None)
  }

  function ProxyEntry(address: string, implementation: string, admin: string, proxyType: Chain.ProxyType): Entry {
    Entry(address, Some(proxyType), Some(admin), Some(implementation), None, None, None, None)
  }

  function Promoted(e: Entry): Entry
    requires e.pending.Some?
  {
    e.(implementation := Some(e.pending.value.address),
       implementationDeployment := Some(e.pending.value.deployment),
       pending := None)
  }

  /**
   * The data operations. Each reads one entry and writes the changed entry back; an operation on
   * a name without an entry throws in the base address book and changes nothing.
   */
  class AddressBookOps {
    var entries: Book

    constructor (initial: Book)
      ensures entries == initial
    {
      entries := initial;
    }

    method SetContract(name: string, address: string)
      modifies this
      ensures entries == old(entries)[name := ContractEntry(address)]
    {
      entries := entries[name := ContractEntry(address)];
    }

    method SetProxy(name: string, address: string, implementation: string, admin: string, proxyType: Chain.ProxyType)
      modifies this
      ensures entries == old(entries)[name := ProxyEntry(address, implementation, admin, proxyType)]
    {
      entries := entries[name := ProxyEntry(address, implementation, admin, proxyType)];
    }

    method SetImplementation(name: string, implementation: string) returns (ok: bool)
      modifies this
      ensures ok == (name in old(entries))
      ensures entries == if ok then old(entries)[name := old(entries)[name].(implementation := Some(implementation))]
                         else old(entries)
    {
      ok := name in entries;
      if ok {
        entries := entries[name := entries[name].(implementation := Some(implementation))];
      }
    }

    method SetDeploymentMetadata(name: string, metadata: Metadata) returns (ok: bool)
      modifies this
      ensures ok == (name in old(entries))
      ensures entries == if ok then old(entries)[name := old(entries)[name].(deployment := Some(metadata))]
                         else old(entries)
    {
      ok := name in entries;
      if ok {
        entries := entries[name := entries[name].(deployment := Some(metadata))];
      }
    }

    method SetProxyDeploymentMetadata(name: string, metadata: Metadata) returns (ok: bool)
      modifies this
      ensures ok == (name in old(entries))
      ensures entries == if ok then old(entries)[name := old(entries)[name].(proxyDeployment := Some(metadata))]
                         else old(entries)
    {
      ok := name in entries;
      if ok {
        entries := entries[name := entries[name].(proxyDeployment := Some(metadata))];
      }
    }

    method SetImplementationDeploymentMetadata(name: string, metadata: Metadata) returns (ok: bool)
      modifies this
      ensures ok == (name in old(entries))
      ensures entries == if ok
                         then old(entries)[name := old(entries)[name].(implementationDeployment := Some(metadata))]
                         else old(entries)
    {
      ok := name in entries;
      if ok {
        entries := entries[name := entries[name].(implementationDeployment := Some(metadata))];
      }
    }

    /** Replaces the metadata of an existing pending implementation, keeping its address. */
    method SetPendingDeploymentMetadata(name: string, metadata: Metadata) returns (ok: bool)
      modifies this
      ensures ok == (name in old(entries) && old(entries)[name].pending.Some?)
      ensures entries == if ok
                         then old(entries)[name := old(entries)[name].(
                                pending := Some(old(entries)[name].pending.value.(deployment := metadata)))]
                         else old(entries)
    {
      ok := name in entries && entries[name].pending.Some?;
      if ok {
        var e := entries[name];
        entries := entries[name := e.(pending := Some(e.pending.value.(deployment := metadata)))];
      }
    }

    /** Refused for an entry that is not a proxy. */
    method SetPendingImplementationWithMetadata(name: string, address: string, metadata: Metadata) returns (ok: bool)
      modifies this
      ensures ok == (name in old(entries) && old(entries)[name].proxy.Some?)
      ensures entries == if ok
                         then old(entries)[name := old(entries)[name].(pending := Some(Pending(address, metadata)))]
                         else old(entries)
    {
      ok := name in entries && entries[name].proxy.Some?;
      if ok {
        entries := entries[name := entries[name].(pending := Some(Pending(address, metadata)))];
      }
    }

    method PromotePendingImplementationWithMetadata(name: string) returns (ok: bool)
      modifies this
      ensures ok == (name in old(entries) && old(entries)[name].pending.Some?)
      ensures entries == if ok then old(entries)[name := Promoted(old(entries)[name])] else old(entries)
    {
      ok := name in entries && entries[name].pending.Some?;
      if ok {
        entries := entries[name := Promoted(entries[name])];
      }
    }
  }
}

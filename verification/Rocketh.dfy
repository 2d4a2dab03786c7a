/** Rocketh's deployment records and the abstract chain they talk about. */
module Chain {
  import opened Wrappers
  import opened Addresses

  /** What was really deployed at an address: the fingerprint of its code and its constructor arguments. */
  datatype Code = Code(fingerprint: string, argsData: string)

  datatype ProxyType = Graph | Transparent

  /** A proxy contract: its admin, its active implementation and, for a Graph proxy, the one proposed to it. */
  datatype Proxy = Proxy(kind: ProxyType, admin: string, implementation: string, proposed: Option<string>)

  /** The chain as the deployment code sees it, keyed by lower-case address. */
  datatype State = State(proxies: map<string, Proxy>, code: map<string, Code>)

  predicate HasCode(c: State, address: string) {
    Lower(address) in c.code
  }

  /** The implementation a proxy reports, or nothing when the read fails. */
  function ReadImplementation(c: State, proxy: string): Option<string> {
    if Lower(proxy) in c.proxies then Some(c.proxies[Lower(proxy)].implementation) else None
  }

  /** A governance call, decoded. Any other call leaves the proxies alone. */
  datatype Call =
    | UpgradeAndCall(proxy: string, implementation: string)
    | Upgrade(proxy: string, implementation: string)
    | AcceptProxy(implementation: string, proxy: string)
    | Other(data: string)

  /** The proxy a call sent to `to` would act on: it must exist, be of that kind and be administered by `to`. */
  predicate Administers(c: State, to: string, proxy: string, kind: ProxyType) {
    Lower(proxy) in c.proxies && c.proxies[Lower(proxy)].kind == kind && Same(c.proxies[Lower(proxy)].admin, to)
  }

  /** The call takes effect rather than reverting. */
  predicate Succeeds(c: State, to: string, call: Call) {
    match call
    case UpgradeAndCall(proxy, impl) => Administers(c, to, proxy, Transparent) && HasCode(c, impl)
    case Upgrade(proxy, impl) => Administers(c, to, proxy, Graph)
    case AcceptProxy(impl, proxy) =>
      Administers(c, to, proxy, Graph) && HasCode(c, impl) && c.proxies[Lower(proxy)].proposed == Some(Lower(impl))
    case Other(_) => true
  }

  /**
   * Graph proxies activate in two calls, transparent ones in one. A reverted call changes nothing,
   * and nothing in the executors notices it.
   */
  function Executed(c: State, to: string, call: Call): State {
    if !Succeeds(c, to, call) || call.Other? then c
    else
      var p := c.proxies[Lower(call.proxy)];
      var p' := match call
                case Upgrade(_, impl) => p.(proposed := Some(Lower(impl)))
                case _ => p.(implementation := Lower(call.implementation), proposed := None);
      c.(proxies := c.proxies[Lower(call.proxy) := p'])
  }
}

module Rocketh {
  import opened Wrappers
  import opened Addresses
  import Chain

  /**
   * A deployment record. `runtimeHash` stands for `deployedBytecode`: it is its fingerprint, or
   * empty when the record has none. Only a record written by a deployment has a transaction.
   */
  datatype Record = Record(
    address: string,
    bytecode: string,
    runtimeHash: string,
    argsData: string,
    txHash: string,
    blockNumber: Option<nat>)

  /**
   * A compiled artifact: linked creation bytecode as rocketh compares it, that is without its metadata
   * trailer, runtime fingerprint, and fingerprint with libraries resolved.
   */
  datatype Artifact = Artifact(bytecode: string, runtimeHash: string, hash: string)

  type Records = map<string, Record>

  function GetOrNull(records: Records, name: string): Option<Record> {
    if name in records then Some(records[name]) else None
  }

  /** A record that carries an address only. */
  function BareRecord(address: string): Record {
    Record(address, "0x", "", "0x", "", None)
  }

  /** Skip exactly when the record already has this bytecode and these arguments. */
  predicate UpToDate(records: Records, name: string, artifact: Artifact, argsData: string) {
    name in records && records[name].bytecode == artifact.bytecode && records[name].argsData == argsData
  }

  /** The outside facts of a deployment, should one happen: where it lands and in which transaction. */
  datatype Receipt = Receipt(address: string, txHash: string, blockNumber: nat)

  function DeployedRecord(artifact: Artifact, argsData: string, receipt: Receipt): Record {
    Record(receipt.address, artifact.bytecode, artifact.runtimeHash, argsData, receipt.txHash,
           Some(receipt.blockNumber))
  }

  function AfterDeploy(records: Records, name: string, artifact: Artifact, argsData: string,
                       receipt: Receipt): Records {
    if UpToDate(records, name, artifact, argsData) then records
    else records[name := DeployedRecord(artifact, argsData, receipt)]
  }

  /** The chain after a contract with this fingerprint has been deployed. */
  function CodeAdded(c: Chain.State, address: string, fingerprint: string, argsData: string): Chain.State {
    c.(code := c.code[Lower(address) := Chain.Code(fingerprint, argsData)])
  }

  class Environment {
    var records: Records

    constructor (initial: Records)
      ensures records == initial
    {
      records := initial;
    }

    method Save(name: string, record: Record)
      modifies this
      ensures records == old(records)[name := record]
    {
      records := records[name := record];
    }
  }
}

/**
 * Sync: bring the address book and rocketh's records in line with the chain, one contract at a
 * time. The functions say what a sync leaves behind; the class at the end does it in place.
 */
module Sync {
  import opened Wrappers
  import opened Addresses
  import opened AddressBook
  import opened Rocketh
  import Chain

  datatype Stores = Stores(book: Book, records: Records)

  datatype Outcome = Outcome(stores: Stores, success: bool)

  /** What the contract registry says of a contract. */
  datatype Registration = Registration(
    proxyType: Option<Chain.ProxyType>,
    proxyAdminName: Option<string>,
    prerequisite: bool,
    addressOnly: bool,
    sharedImplementation: Option<string>)

  datatype ProxySpec = ProxySpec(
    adminAddress: string,
    adminRecord: string,
    bookImpl: Option<string>,
    bookPending: Option<string>)

  /** `artifact` is absent when there is none or it cannot be loaded. `argsData` is empty when absent. */
  datatype Spec = Spec(
    name: string,
    address: string,
    prerequisite: bool,
    addressOnly: bool,
    registered: bool,
    artifact: Option<Artifact>,
    argsData: string,
    proxy: Option<ProxySpec>)

  function ProxyName(name: string): string { name + "_Proxy" }

  function ImplName(name: string): string { name + "_Implementation" }

  function AdminRecordName(reg: Registration, name: string): string {
    reg.proxyAdminName.GetOr(name + "_ProxyAdmin")
  }

  /** Arguments that say something: present, and not the placeholder of a bare record. */
  predicate RealArgs(argsData: string) {
    argsData != "" && argsData != "0x"
  }

  function ArgsOf(m: Option<Metadata>): string {
    if m.Some? then m.value.argsData else ""
  }

  function BlockOf(m: Option<Metadata>): Option<nat> {
    if m.Some? then m.value.blockNumber else None
  }

  function HashOf(m: Option<Metadata>): string {
    if m.Some? then m.value.bytecodeHash else ""
  }

  function LocalHash(artifact: Option<Artifact>): string {
    if artifact.Some? then artifact.value.hash else ""
  }

  /** The block comparison that decides whether a record may overwrite address-book metadata. */
  predicate RockethIsNewer(m: Option<Metadata>, r: Record) {
    || ArgsOf(m) == ""
    || (r.blockNumber.Some? && BlockOf(m).None?)
    || (r.blockNumber.Some? && BlockOf(m).Some? && r.blockNumber.value > BlockOf(m).value)
  }

  function BackfilledMetadata(r: Record, hash: string): Metadata {
    Metadata(r.txHash, r.argsData, hash, r.blockNumber)
  }

  // ---------------------------------------------------------------- contract specification

  function ProxyAdminAddress(reg: Registration, e: Entry, book: Book): Option<string> {
    if Truthy(e.proxyAdmin) then e.proxyAdmin
    else if Truthy(reg.proxyAdminName) && reg.proxyAdminName.value in book
    then Some(book[reg.proxyAdminName.value].address)
    else None
  }

  /** The admin on record: the entry's own, else the address of the entry the registry names. */
  predicate RecordedAdmin(reg: Registration, e: Entry, book: Book, admin: string) {
    if e.proxyAdmin.Some? && e.proxyAdmin.value != "" then admin == e.proxyAdmin.value
    else
      && reg.proxyAdminName.Some? && reg.proxyAdminName.value != "" && reg.proxyAdminName.value in book
      && admin == book[reg.proxyAdminName.value].address
  }

  lemma AdminIff(reg: Registration, e: Entry, book: Book, admin: string)
    ensures ProxyAdminAddress(reg, e, book) == Some(admin) <==> RecordedAdmin(reg, e, book, admin)
  {
  }

  /** Fails for a missing prerequisite and for a proxy whose admin is recorded nowhere. */
  function BuildSpec(reg: Registration, name: string, book: Book, artifact: Option<Artifact>): Result<Spec> {
    if name !in book then
      if reg.prerequisite then Err
      else Ok(Spec(name, "", reg.prerequisite, reg.addressOnly, true, artifact, "", None))
    else
      var e := book[name];
      var args := ArgsOf(e.ActiveMetadata());
      var spec := Spec(name, e.address, reg.prerequisite, reg.addressOnly, true, artifact,
                       if RealArgs(args) then args else "", None);
      if reg.proxyType.None? then Ok(spec)
      else
        match ProxyAdminAddress(reg, e, book)
        case None => Err
        case Some(admin) =>
          Ok(spec.(proxy := Some(ProxySpec(admin, AdminRecordName(reg, name), e.implementation,
                                           if e.pending.Some? then Some(e.pending.value.address) else None))))
  }

  // ---------------------------------------------------------------- contracts without a proxy

  /**
   * Seeding copies the local artifact into a missing record. It is refused only on a verified
   * mismatch, because it would make the drifted artifact look deployed.
   */
  predicate ShouldSeed(spec: Spec, book: Book) {
    || !spec.registered
    || spec.prerequisite
    || spec.artifact.None?
    || spec.name !in book
    || HashOf(book[spec.name].ActiveMetadata()) == ""
    || spec.artifact.value.hash == ""
    || spec.artifact.value.hash == HashOf(book[spec.name].ActiveMetadata())
  }

  function SeededRecord(spec: Spec): Record {
    Record(spec.address,
           if spec.artifact.Some? && spec.artifact.value.bytecode != "" then spec.artifact.value.bytecode else "0x",
           if spec.artifact.Some? then spec.artifact.value.runtimeHash else "",
           if spec.argsData == "" then "0x" else spec.argsData,
           "", None)
  }

  /** The record's address follows the book; its transaction is dropped, the rest is kept. */
  function Moved(r: Record, address: string): Record {
    r.(address := address, txHash := "", blockNumber := None)
  }

  function ImportPlain(records: Records, spec: Spec, seed: bool): Records {
    if spec.name !in records then
      if seed then records[spec.name := SeededRecord(spec)] else records
    else if !Same(records[spec.name].address, spec.address) then
      records[spec.name := Moved(records[spec.name], spec.address)]
    else records
  }

  /** Registered contracts take over the metadata of a newer record, with the local artifact's fingerprint. */
  function BackfillDeployment(s: Stores, spec: Spec): Outcome {
    if spec.registered && spec.name in s.records && RealArgs(s.records[spec.name].argsData) then
      if spec.name !in s.book then Outcome(s, false)
      else
        var e := s.book[spec.name];
        var r := s.records[spec.name];
        if RockethIsNewer(e.deployment, r) then
          var metadata := BackfilledMetadata(r, LocalHash(spec.artifact));
          Outcome(s.(book := s.book[spec.name := e.(deployment := Some(metadata))]), true)
        else Outcome(s, true)
    else Outcome(s, true)
  }

  function SyncPlain(s: Stores, c: Chain.State, spec: Spec): Outcome {
    if !Chain.HasCode(c, spec.address) then Outcome(s, false)
    else
      BackfillDeployment(s.(records := ImportPlain(s.records, spec, ShouldSeed(spec, s.book))), spec)
  }

  predicate NoAddress(address: string) {
    address == "" || address == ZERO_ADDRESS
  }

  // ---------------------------------------------------------------- proxies

  /**
   * The address book follows the chain: a pending implementation that became active is promoted
   * with its metadata, any other change replaces the implementation and wipes its metadata.
   */
  function Reconcile(book: Book, name: string, p: ProxySpec, onChain: string): Option<Book> {
    if name !in book then None
    else
      var e := book[name];
      if SameOpt(p.bookPending, onChain) && (!SameOpt(p.bookImpl, onChain) || p.bookPending.value != "") then
        if e.pending.Some? then Some(book[name := Promoted(e)]) else None
      else if !SameOpt(p.bookImpl, onChain) then
        Some(book[name := e.(implementation := Some(onChain), implementationDeployment := Some(WIPED))])
      else Some(book)
  }

  /** A proxy's own records carry an address only, and are rewritten when it is missing or differs. */
  function ImportAddress(records: Records, name: string, address: string): Records {
    if name in records && Same(records[name].address, address) then records
    else records[name := BareRecord(address)]
  }

  function BackfillProxy(book: Book, records: Records, name: string): Book
    requires name in book
  {
    if ProxyName(name) in records && RealArgs(records[ProxyName(name)].argsData)
       && RockethIsNewer(book[name].proxyDeployment, records[ProxyName(name)])
    then
      var r := records[ProxyName(name)];
      book[name := book[name].(proxyDeployment := Some(BackfilledMetadata(r, r.runtimeHash)))]
    else book
  }

  function PatchedArgs(records: Records, name: string, argsData: string): Records {
    if name in records && argsData != "" && !RealArgs(records[name].argsData)
    then records[name := records[name].(argsData := argsData, txHash := "", blockNumber := None)]
    else records
  }

  /** Metadata goes to the pending implementation when there is one, else to the active one. */
  function WithLatestMetadata(e: Entry, metadata: Metadata): Entry {
    if e.pending.Some? then e.(pending := Some(e.pending.value.(deployment := metadata)))
    else e.(implementationDeployment := Some(metadata))
  }

  function BackfillImplementation(book: Book, records: Records, name: string, hash: string): Book
    requires name in book
  {
    if ImplName(name) in records && RealArgs(records[ImplName(name)].argsData)
       && RockethIsNewer(book[name].LatestMetadata(), records[ImplName(name)])
    then book[name := WithLatestMetadata(book[name], BackfilledMetadata(records[ImplName(name)], hash))]
    else book
  }

  /** The local artifact is known to be the code of the latest implementation. */
  predicate HashMatches(e: Entry, artifact: Option<Artifact>) {
    var stored := HashOf(e.LatestMetadata());
    stored != "" && LocalHash(artifact) != "" && stored == LocalHash(artifact)
  }

  /** `${name}_Implementation` is not itself a registry entry, so it is always seeded and never backfilled. */
  function ImplSpec(name: string, address: string, artifact: Option<Artifact>): Spec {
    Spec(ImplName(name), address, true, false, false, artifact, "", None)
  }

  function SyncImplementation(s: Stores, c: Chain.State, name: string, artifact: Option<Artifact>): Outcome
    requires name in s.book
  {
    var e := s.book[name];
    var latest := e.LatestAddress();
    if !Truthy(latest) || !HashMatches(e, artifact) then Outcome(s, true)
    else if NoAddress(latest.value) || !Chain.HasCode(c, latest.value) then Outcome(s, false)
    else
      var imported := ImportPlain(s.records, ImplSpec(name, latest.value, artifact), true);
      var patched := PatchedArgs(imported, ImplName(name), ArgsOf(e.LatestMetadata()));
      Outcome(Stores(BackfillImplementation(s.book, patched, name, LocalHash(artifact)), patched), true)
  }

  /** The three records that describe the proxy itself. */
  function ImportProxy(records: Records, spec: Spec): Records
    requires spec.proxy.Some?
  {
    ImportAddress(
      ImportAddress(ImportAddress(records, spec.name, spec.address), ProxyName(spec.name), spec.address),
      spec.proxy.value.adminRecord, spec.proxy.value.adminAddress)
  }

  function SyncProxy(s: Stores, c: Chain.State, spec: Spec): Outcome
    requires spec.proxy.Some?
  {
    match Chain.ReadImplementation(c, spec.address)
    case None => Outcome(s, false)
    case Some(onChain) =>
      match Reconcile(s.book, spec.name, spec.proxy.value, onChain)
      case None => Outcome(s, false)
      case Some(book) =>
        if !Chain.HasCode(c, spec.address) then Outcome(s.(book := book), false)
        else
          var aliased := ImportAddress(ImportAddress(s.records, spec.name, spec.address),
                                       ProxyName(spec.name), spec.address);
          var filled := BackfillProxy(book, aliased, spec.name);
          SyncImplementation(Stores(filled, ImportProxy(s.records, spec)), c, spec.name, spec.artifact)
  }

  function SyncContract(s: Stores, c: Chain.State, spec: Spec): Outcome {
    if NoAddress(spec.address) then Outcome(s, !spec.prerequisite)
    else if spec.addressOnly then Outcome(s, true)
    else if spec.proxy.Some? then SyncProxy(s, c, spec)
    else SyncPlain(s, c, spec)
  }

  /** Sync of a component named in the registry; a specification that cannot be built is an error. */
  function SyncComponent(s: Stores, c: Chain.State, reg: Registration, name: string,
                         artifact: Option<Artifact>): Outcome {
    match BuildSpec(reg, name, s.book, artifact)
    case Err => Outcome(s, false)
    case Ok(spec) => SyncContract(s, c, spec)
  }

  /** Many contracts, one after the other; a failed one does not stop the rest. */
  function GroupSynced(s: Stores, c: Chain.State, specs: seq<Spec>): Stores {
    if specs == [] then s
    else SyncContract(GroupSynced(s, c, specs[..|specs| - 1]), c, specs[|specs| - 1]).stores
  }

  function GroupFailures(s: Stores, c: Chain.State, specs: seq<Spec>): seq<string> {
    if specs == [] then []
    else
      var init, last := specs[..|specs| - 1], specs[|specs| - 1];
      GroupFailures(s, c, init) + if SyncContract(GroupSynced(s, c, init), c, last).success then [] else [last.name]
  }

  // ---------------------------------------------------------------- in place

  /** The same work done step by step on the two stores, as the deployment scripts do it. */
  class Syncer {
    const book: AddressBookOps
    const env: Environment

    constructor (book: AddressBookOps, env: Environment)
      ensures this.book == book && this.env == env
    {
      this.book, this.env := book, env;
    }

    ghost function Now(): Stores
      reads book, env
    {
      Stores(book.entries, env.records)
    }

    method ImportAddressRecord(name: string, address: string)
      modifies env
      ensures env.records == ImportAddress(old(env.records), name, address)
    {
      var existing := GetOrNull(env.records, name);
      if existing.None? || !Same(existing.value.address, address) {
        env.Save(name, BareRecord(address));
      }
    }

    method ReconcileEntry(name: string, p: ProxySpec, onChain: string) returns (ok: bool)
      modifies book
      ensures ok == Reconcile(old(book.entries), name, p, onChain).Some?
      ensures book.entries == Reconcile(old(book.entries), name, p, onChain).GetOr(old(book.entries))
    {
      var implMatches := SameOpt(p.bookImpl, onChain);
      if !implMatches {
        if SameOpt(p.bookPending, onChain) {
          ok := book.PromotePendingImplementationWithMetadata(name);
        } else {
          ok := book.SetImplementation(name, onChain);
          if ok {
            ok := book.SetImplementationDeploymentMetadata(name, WIPED);
          }
        }
      } else if Truthy(p.bookPending) && Same(p.bookPending.value, onChain) {
        ok := book.PromotePendingImplementationWithMetadata(name);
      } else {
        ok := name in book.entries;
      }
    }

    method BackfillProxyMetadata(name: string)
      requires name in book.entries
      modifies book
      ensures book.entries == BackfillProxy(old(book.entries), env.records, name)
    {
      var record := GetOrNull(env.records, ProxyName(name));
      if record.Some? && RealArgs(record.value.argsData) {
        if RockethIsNewer(book.entries[name].proxyDeployment, record.value) {
          var _ := book.SetProxyDeploymentMetadata(name, BackfilledMetadata(record.value, record.value.runtimeHash));
        }
      }
    }

    method SyncPlainContract(spec: Spec) returns (ok: bool)
      modifies book, env
      ensures Outcome(Now(), ok)
           == BackfillDeployment(
                Stores(old(book.entries), ImportPlain(old(env.records), spec, ShouldSeed(spec, old(book.entries)))),
                spec)
    {
      var existing := GetOrNull(env.records, spec.name);
      var seed := ShouldSeed(spec, book.entries);
      if existing.None? {
        if seed {
          env.Save(spec.name, SeededRecord(spec));
        }
      } else if !Same(existing.value.address, spec.address) {
        env.Save(spec.name, Moved(existing.value, spec.address));
      }
      var record := GetOrNull(env.records, spec.name);
      ok := true;
      if spec.registered && record.Some? && RealArgs(record.value.argsData) {
        if spec.name !in book.entries {
          ok := false;
        } else if RockethIsNewer(book.entries[spec.name].deployment, record.value) {
          ok := book.SetDeploymentMetadata(spec.name, BackfilledMetadata(record.value, LocalHash(spec.artifact)));
        }
      }
    }

    method SyncImplementationRecord(c: Chain.State, name: string, artifact: Option<Artifact>) returns (ok: bool)
      requires name in book.entries
      modifies book, env
      ensures Outcome(Now(), ok) == SyncImplementation(old(Now()), c, name, artifact)
    {
      var e := book.entries[name];
      var latest, metadata := e.LatestAddress(), e.LatestMetadata();
      if !Truthy(latest) || !HashMatches(e, artifact) {
        return true;
      }
      if NoAddress(latest.value) || !Chain.HasCode(c, latest.value) {
        return false;
      }
      ok := SyncPlainContract(ImplSpec(name, latest.value, artifact));
      var imported := GetOrNull(env.records, ImplName(name));
      if imported.Some? && ArgsOf(metadata) != "" && !RealArgs(imported.value.argsData) {
        env.Save(ImplName(name), imported.value.(argsData := ArgsOf(metadata), txHash := "", blockNumber := None));
      }
      var record := GetOrNull(env.records, ImplName(name));
      if record.Some? && RealArgs(record.value.argsData) && RockethIsNewer(metadata, record.value) {
        var filled := BackfilledMetadata(record.value, LocalHash(artifact));
        if e.pending.Some? {
          ok := book.SetPendingDeploymentMetadata(name, filled);
        } else {
          ok := book.SetImplementationDeploymentMetadata(name, filled);
        }
      }
    }

    method SyncProxyContract(c: Chain.State, spec: Spec) returns (ok: bool)
      requires spec.proxy.Some?
      modifies book, env
      ensures Outcome(Now(), ok) == SyncProxy(old(Now()), c, spec)
    {
      var onChain := Chain.ReadImplementation(c, spec.address);
      if onChain.None? {
        return false;
      }
      ok := ReconcileEntry(spec.name, spec.proxy.value, onChain.value);
      if !ok || !Chain.HasCode(c, spec.address) {
        return false;
      }
      ImportAddressRecord(spec.name, spec.address);
      ImportAddressRecord(ProxyName(spec.name), spec.address);
      BackfillProxyMetadata(spec.name);
      ImportAddressRecord(spec.proxy.value.adminRecord, spec.proxy.value.adminAddress);
      ok := SyncImplementationRecord(c, spec.name, spec.artifact);
    }

    method Run(c: Chain.State, reg: Registration, name: string, artifact: Option<Artifact>) returns (ok: bool)
      modifies book, env
      ensures Outcome(Now(), ok) == SyncComponent(old(Now()), c, reg, name, artifact)
    {
      var built := BuildSpec(reg, name, book.entries, artifact);
      if built.Err? {
        return false;
      }
      ok := SyncSpec(c, built.value);
    }

    method SyncSpec(c: Chain.State, spec: Spec) returns (ok: bool)
      modifies book, env
      ensures Outcome(Now(), ok) == SyncContract(old(Now()), c, spec)
    {
      if NoAddress(spec.address) {
        return !spec.prerequisite;
      }
      if spec.addressOnly {
        return true;
      }
      if spec.proxy.Some? {
        ok := SyncProxyContract(c, spec);
      } else if Chain.HasCode(c, spec.address) {
        ok := SyncPlainContract(spec);
      } else {
        ok := false;
      }
    }

    method SyncGroup(c: Chain.State, specs: seq<Spec>) returns (failures: seq<string>)
      modifies book, env
      ensures Now() == GroupSynced(old(Now()), c, specs) && failures == GroupFailures(old(Now()), c, specs)
    {
      failures := [];
      for k := 0 to |specs|
        invariant Now() == GroupSynced(old(Now()), c, specs[..k])
        invariant failures == GroupFailures(old(Now()), c, specs[..k])
      {
        assert specs[..k + 1][..k] == specs[..k];
        var ok := SyncSpec(c, specs[k]);
        if !ok {
          failures := failures + [specs[k].name];
        }
      }
      assert specs[..|specs|] == specs;
    }
  }
}

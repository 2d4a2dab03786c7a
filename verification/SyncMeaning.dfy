/**
 * What a sync does to the two stores, said in terms of what they held and what the chain answers:
 * addresses compared but for letter case, record names spelled out, the later block winning.
 */
module SyncMeaning {
  import opened Wrappers
  import opened Addresses
  import opened AddressBook
  import opened Rocketh
  import opened Sync
  import opened SyncProperties
  import Chain

  // ---------------------------------------------------------------- the specification

  /** What is built of a contract that is in the book, and exactly when building fails. */
  lemma SpecFields(reg: Registration, name: string, book: Book, own: Option<Artifact>)
    ensures BuildSpec(reg, name, book, own).Err?
       <==> if name !in book then reg.prerequisite
            else reg.proxyType.Some? && forall a :: !RecordedAdmin(reg, book[name], book, a)
    ensures BuildSpec(reg, name, book, own).Ok? ==>
              var spec := BuildSpec(reg, name, book, own).value;
              && spec.name == name && spec.registered && spec.artifact == own
              && spec.prerequisite == reg.prerequisite && spec.addressOnly == reg.addressOnly
              && (name !in book ==> spec.address == "" && spec.proxy.None?)
              && (name in book ==>
                    var e := book[name];
                    && spec.address == e.address && spec.proxy.Some? == reg.proxyType.Some?
                    && (spec.proxy.Some? ==>
                          var p := spec.proxy.value;
                          && RecordedAdmin(reg, e, book, p.adminAddress)
                          && p.adminRecord == (if reg.proxyAdminName.Some? then reg.proxyAdminName.value
                                               else name + "_ProxyAdmin")
                          && p.bookImpl == e.implementation
                          && p.bookPending == if e.pending.Some? then Some(e.pending.value.address) else None))
  {
    if name in book && reg.proxyType.Some? {
      var admin := ProxyAdminAddress(reg, book[name], book);
      if admin.Some? {
        AdminIff(reg, book[name], book, admin.value);
      } else {
        forall a ensures !RecordedAdmin(reg, book[name], book, a) {
          AdminIff(reg, book[name], book, a);
        }
      }
    }
  }

  // ---------------------------------------------------------------- the entry of a proxy

  /** The sync of a proxy gets to compare the book with the chain; the entry is a proxy's. */
  predicate Compared(s: Stores, c: Chain.State, reg: Registration, name: string, own: Option<Artifact>) {
    && name in s.book && s.book[name].proxy.Some?
    && reg.proxyType.Some? && BuildSpec(reg, name, s.book, own).Ok?
    && s.book[name].address != "" && s.book[name].address != ZERO_ADDRESS && !reg.addressOnly
    && Chain.ReadImplementation(c, s.book[name].address).Some?
    && Chain.ReadImplementation(c, s.book[name].address).value != ""
  }

  /** What is pending is active on chain, whatever case the two addresses are written in. */
  predicate BecameActive(e: Entry, onChain: string) {
    e.pending.Some? && SameButCase(e.pending.value.address, onChain)
  }

  predicate InForce(e: Entry, onChain: string) {
    e.implementation.Some? && SameButCase(e.implementation.value, onChain)
  }

  /** The same metadata, or that of a newer record of the same code. */
  predicate KeptOrRefreshed(m: Option<Metadata>, m': Option<Metadata>) {
    m' == m || (m.Some? && m'.Some? && m.value.bytecodeHash != "" && m'.value.bytecodeHash == m.value.bytecodeHash)
  }

  /**
   * The entry follows the chain. A pending implementation that became active is promoted with its
   * metadata; one that is in force already stays with its metadata; any other replaces the recorded
   * one, whose metadata is wiped. Differences of letter case count for nothing.
   */
  lemma EntryFollowsChain(s: Stores, c: Chain.State, reg: Registration, name: string, own: Option<Artifact>)
    requires Compared(s, c, reg, name, own)
    ensures var e, onChain := s.book[name], Chain.ReadImplementation(c, s.book[name].address).value;
            var book' := SyncComponent(s, c, reg, name, own).stores.book;
            && name in book' && book' - {name} == s.book - {name}
            && var e' := book'[name];
               && e'.address == e.address && e'.proxy == e.proxy && e'.proxyAdmin == e.proxyAdmin
               && e'.deployment == e.deployment
               && if BecameActive(e, onChain) then
                    && e'.implementation == Some(e.pending.value.address) && e'.pending.None?
                    && KeptOrRefreshed(Some(e.pending.value.deployment), e'.implementationDeployment)
                  else
                    && (e.pending.None? ==> e'.pending.None?)
                    && (e.pending.Some? ==>
                          && e'.pending.Some? && e'.pending.value.address == e.pending.value.address
                          && KeptOrRefreshed(Some(e.pending.value.deployment), Some(e'.pending.value.deployment)))
                    && if InForce(e, onChain) then
                         && e'.implementation == e.implementation
                         && KeptOrRefreshed(e.implementationDeployment, e'.implementationDeployment)
                       else
                         && e'.implementation == Some(onChain)
                         && e'.implementationDeployment == Some(Metadata("", "0x", "", None))
  {
    var spec := BuildSpec(reg, name, s.book, own).value;
    var onChain := Chain.ReadImplementation(c, spec.address).value;
    ReconcileMeaning(s.book, name, spec.proxy.value, onChain);
    ReconcileSettles(s.book, name, spec.proxy.value, onChain);
    var book := Reconcile(s.book, name, spec.proxy.value, onChain).value;
    SyncKeepsLatest(s, c, spec, book, onChain);
    if Chain.HasCode(c, spec.address) {
      ImplementationKeptOrRefreshed(BeforeImplementation(s, spec, onChain), c, name, own);
    }
  }

  lemma ReconcileMeaning(book: Book, name: string, p: ProxySpec, onChain: string)
    requires name in book && p.bookImpl == book[name].implementation && onChain != ""
    requires p.bookPending == PendingAddress(book[name])
    ensures Reconcile(book, name, p, onChain)
         == Some(book[name :=
              if BecameActive(book[name], onChain) then
                book[name].(implementation := Some(book[name].pending.value.address),
                            implementationDeployment := Some(book[name].pending.value.deployment), pending := None)
              else if InForce(book[name], onChain) then book[name]
              else book[name].(implementation := Some(onChain),
                               implementationDeployment := Some(Metadata("", "0x", "", None)))])
  {
    var e := book[name];
    assert book[name := e] == book;
    if e.pending.Some? {
      SameIff(e.pending.value.address, onChain);
    }
    if e.implementation.Some? {
      SameIff(e.implementation.value, onChain);
    }
  }

  lemma ImplementationKeptOrRefreshed(s: Stores, c: Chain.State, name: string, own: Option<Artifact>)
    requires name in s.book && s.book[name].proxy.Some?
    ensures var e, e' := s.book[name], SyncImplementation(s, c, name, own).stores.book[name];
            && e'.implementation == e.implementation
            && (e.pending.None? ==>
                  e'.pending.None? && KeptOrRefreshed(e.implementationDeployment, e'.implementationDeployment))
            && (e.pending.Some? ==>
                  && e'.implementationDeployment == e.implementationDeployment
                  && e'.pending.Some? && e'.pending.value.address == e.pending.value.address
                  && KeptOrRefreshed(Some(e.pending.value.deployment), Some(e'.pending.value.deployment)))
  {
  }

  // ---------------------------------------------------------------- the records of a proxy

  /** A record keeps what it has if it is at the address; otherwise it becomes one that has nothing but the address. */
  predicate AtAddress(records: Records, records': Records, name: string, address: string) {
    && name in records'
    && records'[name] == if name in records && SameButCase(records[name].address, address) then records[name]
                         else Record(address, "0x", "", "0x", "", None)
  }

  /** What `m'` has at `x` is what `m` has there. */
  predicate Unchanged(m: Records, m': Records, x: string) {
    (x in m' <==> x in m) && (x in m ==> m'[x] == m[x])
  }

  /** After the sync of a live proxy, three records are at the addresses of the proxy and of the admin on record. */
  lemma ProxyRecordsFollow(s: Stores, c: Chain.State, reg: Registration, name: string, own: Option<Artifact>)
    requires Compared(s, c, reg, name, own) && Chain.HasCode(c, s.book[name].address) && AdminRecordApart(reg, name)
    ensures var records' := SyncComponent(s, c, reg, name, own).stores.records;
            var adminRecord := if reg.proxyAdminName.Some? then reg.proxyAdminName.value else name + "_ProxyAdmin";
            && AtAddress(s.records, records', name, s.book[name].address)
            && AtAddress(s.records, records', name + "_Proxy", s.book[name].address)
            && exists admin :: RecordedAdmin(reg, s.book[name], s.book, admin)
                               && AtAddress(s.records, records', adminRecord, admin)
  {
    var spec := BuildSpec(reg, name, s.book, own).value;
    var adminRecord := spec.proxy.value.adminRecord;
    SpecFields(reg, name, s.book, own);
    DerivedNamesDistinct(name);
    ImportedProxy(s.records, spec);
    SyncedRecords(s, c, spec, name);
    SyncedRecords(s, c, spec, name + "_Proxy");
    SyncedRecords(s, c, spec, adminRecord);
    assert RecordedAdmin(reg, s.book[name], s.book, spec.proxy.value.adminAddress);
  }

  /** No other record changes, except the implementation's. */
  lemma OtherRecordsStay(s: Stores, c: Chain.State, reg: Registration, name: string, own: Option<Artifact>, x: string)
    requires Compared(s, c, reg, name, own) && Chain.HasCode(c, s.book[name].address) && AdminRecordApart(reg, name)
    requires x !in {name, name + "_Proxy", name + "_Implementation"}
    requires x != if reg.proxyAdminName.Some? then reg.proxyAdminName.value else name + "_ProxyAdmin"
    ensures Unchanged(s.records, SyncComponent(s, c, reg, name, own).stores.records, x)
  {
    var spec := BuildSpec(reg, name, s.book, own).value;
    SpecFields(reg, name, s.book, own);
    ImportedElsewhere(s.records, spec, x);
    SyncedRecords(s, c, spec, x);
  }

  lemma ImportedElsewhere(records: Records, spec: Spec, x: string)
    requires spec.proxy.Some? && x !in {spec.name, spec.name + "_Proxy", spec.proxy.value.adminRecord}
    ensures Unchanged(records, ImportProxy(records, spec), x)
  {
  }

  lemma ImportedProxy(records: Records, spec: Spec)
    requires spec.proxy.Some?
    requires spec.proxy.value.adminRecord !in {spec.name, ProxyName(spec.name), ImplName(spec.name)}
    ensures var r := ImportProxy(records, spec);
            && AtAddress(records, r, spec.name, spec.address)
            && AtAddress(records, r, spec.name + "_Proxy", spec.address)
            && AtAddress(records, r, spec.proxy.value.adminRecord, spec.proxy.value.adminAddress)
  {
    DerivedNamesDistinct(spec.name);
    var r1 := ImportAddress(records, spec.name, spec.address);
    var r2 := ImportAddress(r1, ProxyName(spec.name), spec.address);
    ImportedAt(records, spec.name, spec.address);
    ImportedAt(r1, ProxyName(spec.name), spec.address);
    ImportedAt(r2, spec.proxy.value.adminRecord, spec.proxy.value.adminAddress);
  }

  /** Apart from the implementation's record, the three imports are all that a proxy's sync does to the records. */
  lemma SyncedRecords(s: Stores, c: Chain.State, spec: Spec, x: string)
    requires spec.proxy.Some? && spec.name in s.book && x != spec.name + "_Implementation"
    requires spec.proxy.value.bookImpl == s.book[spec.name].implementation
    requires spec.proxy.value.bookPending == PendingAddress(s.book[spec.name])
    requires Chain.ReadImplementation(c, spec.address).Some? && Chain.HasCode(c, spec.address)
    ensures Unchanged(ImportProxy(s.records, spec), SyncProxy(s, c, spec).stores.records, x)
  {
    var onChain := Chain.ReadImplementation(c, spec.address).value;
    ReconcileSettles(s.book, spec.name, spec.proxy.value, onChain);
    var s1 := BeforeImplementation(s, spec, onChain);
    ImplementationSyncFrame(s1, c, spec.name, spec.artifact);
    ElsewhereAt(s1.records, SyncImplementation(s1, c, spec.name, spec.artifact).stores.records, ImplName(spec.name));
  }

  lemma ImportedAt(records: Records, name: string, address: string)
    ensures var r := ImportAddress(records, name, address);
            && AtAddress(records, r, name, address)
            && forall x :: x != name ==> Unchanged(records, r, x)
  {
    if name in records {
      SameIff(records[name].address, address);
    }
  }

  lemma ElsewhereAt(m: Records, m': Records, name: string)
    requires SameElsewhere(m, m', name)
    ensures forall x :: x != name ==> Unchanged(m, m', x)
  {
    forall x | x != name ensures Unchanged(m, m', x) {
      assert x in m' <==> x in m' - {name};
      assert x in m <==> x in m - {name};
      if x in m {
        assert (m' - {name})[x] == (m - {name})[x];
      }
    }
  }

  // ---------------------------------------------------------------- metadata

  /** Arguments worth carrying over: there are some, and not the placeholder. */
  predicate Meant(args: string) {
    args != "" && args != "0x"
  }

  /**
   * The metadata `m'` that a record leaves where `m` was: the record's, with this fingerprint, if its
   * arguments mean something and it is later or there were no arguments before; else what there was.
   */
  predicate LaterWins(m: Option<Metadata>, r: Option<Record>, hash: string, m': Option<Metadata>) {
    var noArgs := m.None? || m.value.argsData == "";
    var later := r.Some? && r.value.blockNumber.Some?
                 && (m.None? || m.value.blockNumber.None? || m.value.blockNumber.value < r.value.blockNumber.value);
    m' == if r.Some? && Meant(r.value.argsData) && (noArgs || later)
          then Some(Metadata(r.value.txHash, r.value.argsData, hash, r.value.blockNumber))
          else m
  }

  /** The proxy's own metadata after its sync. */
  lemma ProxyMetadataFollows(s: Stores, c: Chain.State, reg: Registration, name: string, own: Option<Artifact>)
    requires Compared(s, c, reg, name, own) && Chain.HasCode(c, s.book[name].address) && AdminRecordApart(reg, name)
    ensures var r := SyncComponent(s, c, reg, name, own).stores;
            && name in r.book && name + "_Proxy" in r.records
            && var record := r.records[name + "_Proxy"];
               LaterWins(s.book[name].proxyDeployment, Some(record), record.runtimeHash, r.book[name].proxyDeployment)
  {
    var spec := BuildSpec(reg, name, s.book, own).value;
    SpecFields(reg, name, s.book, own);
    DerivedNamesDistinct(name);
    ImportedProxy(s.records, spec);
    SyncedRecords(s, c, spec, name + "_Proxy");
    SyncedProxyMetadata(s, c, spec);
  }

  lemma SyncedProxyMetadata(s: Stores, c: Chain.State, spec: Spec)
    requires spec.proxy.Some? && spec.name in s.book
    requires spec.proxy.value.bookImpl == s.book[spec.name].implementation
    requires spec.proxy.value.bookPending == PendingAddress(s.book[spec.name])
    requires spec.proxy.value.adminRecord !in {spec.name, ProxyName(spec.name), ImplName(spec.name)}
    requires Chain.ReadImplementation(c, spec.address).Some? && Chain.HasCode(c, spec.address)
    ensures ProxyName(spec.name) in ImportProxy(s.records, spec)
    ensures var book' := SyncProxy(s, c, spec).stores.book;
            var record := ImportProxy(s.records, spec)[ProxyName(spec.name)];
            && spec.name in book'
            && LaterWins(s.book[spec.name].proxyDeployment, Some(record), record.runtimeHash,
                         book'[spec.name].proxyDeployment)
  {
    var onChain := Chain.ReadImplementation(c, spec.address).value;
    DerivedNamesDistinct(spec.name);
    ImportedProxy(s.records, spec);
    ReconcileSettles(s.book, spec.name, spec.proxy.value, onChain);
    var book := Reconcile(s.book, spec.name, spec.proxy.value, onChain).value;
    var aliased := ImportAddress(ImportAddress(s.records, spec.name, spec.address), ProxyName(spec.name), spec.address);
    ImportedAt(aliased, spec.proxy.value.adminRecord, spec.proxy.value.adminAddress);
    BackfilledProxy(book, aliased, spec.name);
    ImplementationSyncFrame(BeforeImplementation(s, spec, onChain), c, spec.name, spec.artifact);
  }

  lemma BackfilledProxy(book: Book, records: Records, name: string)
    requires name in book && name + "_Proxy" in records
    ensures var book' := BackfillProxy(book, records, name);
            && name in book'
            && var record := records[name + "_Proxy"];
               LaterWins(book[name].proxyDeployment, Some(record), record.runtimeHash, book'[name].proxyDeployment)
  {
  }

  /** The part about the implementation is reached and knows the local artifact to be its code. */
  predicate Recognised(e: Entry, own: Option<Artifact>) {
    var m := if e.pending.Some? then Some(e.pending.value.deployment)
             else if e.proxy.Some? then e.implementationDeployment else e.deployment;
    var address := if e.pending.Some? then Some(e.pending.value.address) else e.implementation;
    && address.Some? && address.value != ""
    && m.Some? && m.value.bytecodeHash != "" && own.Some? && own.value.hash == m.value.bytecodeHash
  }

  /** The record a recognised implementation gets, and its arguments if it had none. */
  function RecognisedRecord(records: Records, name: string, address: string, args: string, own: Artifact): Record {
    var r := if name !in records then
               Record(address, if own.bytecode != "" then own.bytecode else "0x", own.runtimeHash, "0x", "", None)
             else if SameButCase(records[name].address, address) then records[name]
             else records[name].(address := address, txHash := "", blockNumber := None);
    if args != "" && !Meant(r.argsData) then r.(argsData := args, txHash := "", blockNumber := None) else r
  }

  /**
   * The implementation part: unless the local artifact is known to be the code of the latest
   * implementation, nothing happens; else its record is brought to its address and completed, and
   * later metadata is taken over, to what is pending or else to what is active.
   */
  lemma ImplementationFollows(s: Stores, c: Chain.State, name: string, own: Option<Artifact>)
    requires name in s.book && s.book[name].proxy.Some?
    ensures var o := SyncImplementation(s, c, name, own);
            var e, impl := s.book[name], name + "_Implementation";
            if !Recognised(e, own) then o == Outcome(s, true)
            else
              var address := if e.pending.Some? then e.pending.value.address else e.implementation.value;
              var m := if e.pending.Some? then e.pending.value.deployment else e.implementationDeployment.value;
              if address == ZERO_ADDRESS || Lower(address) !in c.code then o == Outcome(s, false)
              else
                var record := RecognisedRecord(s.records, impl, address, m.argsData, own.value);
                && o.success && o.stores.records == s.records[impl := record]
                && name in o.stores.book && o.stores.book - {name} == s.book - {name}
                && var e' := o.stores.book[name];
                   if e.pending.Some? then
                     && e'.pending.Some? && e' == e.(pending := e'.pending)
                     && e'.pending.value.address == address
                     && LaterWins(Some(m), Some(record), own.value.hash, Some(e'.pending.value.deployment))
                   else
                     && e' == e.(implementationDeployment := e'.implementationDeployment)
                     && LaterWins(Some(m), Some(record), own.value.hash, e'.implementationDeployment)
  {
    var e, impl := s.book[name], name + "_Implementation";
    if Recognised(e, own) && impl in s.records {
      SameIff(s.records[impl].address, if e.pending.Some? then e.pending.value.address else e.implementation.value);
      assert s.records[impl := s.records[impl]] == s.records;
    }
  }

  // ---------------------------------------------------------------- contracts without a proxy

  /** The artifact may be copied into a missing record: nothing shows that other code is deployed. */
  predicate MaySeed(reg: Registration, e: Entry, own: Option<Artifact>) {
    var m := if e.proxy.Some? then e.implementationDeployment else e.deployment;
    || reg.prerequisite || own.None? || own.value.hash == ""
    || m.None? || m.value.bytecodeHash == "" || m.value.bytecodeHash == own.value.hash
  }

  /** The record a contract without a proxy has after its sync, if it has one. */
  function PlainRecord(s: Stores, reg: Registration, name: string, own: Option<Artifact>): Option<Record>
    requires name in s.book
  {
    var e := s.book[name];
    var m := if e.proxy.Some? then e.implementationDeployment else e.deployment;
    if name !in s.records then
      if !MaySeed(reg, e, own) then None
      else
        Some(Record(e.address, if own.Some? && own.value.bytecode != "" then own.value.bytecode else "0x",
                    if own.Some? then own.value.runtimeHash else "",
                    if m.Some? && m.value.argsData != "" then m.value.argsData else "0x", "", None))
    else if SameButCase(s.records[name].address, e.address) then Some(s.records[name])
    else Some(s.records[name].(address := e.address, txHash := "", blockNumber := None))
  }

  lemma PlainFollows(s: Stores, c: Chain.State, reg: Registration, name: string, own: Option<Artifact>)
    requires name in s.book && reg.proxyType.None?
    requires s.book[name].address != "" && s.book[name].address != ZERO_ADDRESS && !reg.addressOnly
    ensures var o := SyncComponent(s, c, reg, name, own);
            if Lower(s.book[name].address) !in c.code then o == Outcome(s, false)
            else
              var record := PlainRecord(s, reg, name, own);
              && o.success
              && o.stores.records == (if record.Some? then s.records[name := record.value] else s.records)
              && name in o.stores.book && o.stores.book - {name} == s.book - {name}
              && var e' := o.stores.book[name];
                 && e' == s.book[name].(deployment := e'.deployment)
                 && LaterWins(s.book[name].deployment, record, if own.Some? then own.value.hash else "", e'.deployment)
  {
    var spec := BuildSpec(reg, name, s.book, own).value;
    PlainImported(s, reg, name, own, spec);
    var s1 := s.(records := ImportPlain(s.records, spec, ShouldSeed(spec, s.book)));
    PlainBackfilled(s1, spec);
  }

  lemma PlainImported(s: Stores, reg: Registration, name: string, own: Option<Artifact>, spec: Spec)
    requires name in s.book && reg.proxyType.None? && BuildSpec(reg, name, s.book, own) == Ok(spec)
    ensures var record := PlainRecord(s, reg, name, own);
            ImportPlain(s.records, spec, ShouldSeed(spec, s.book))
            == if record.Some? then s.records[name := record.value] else s.records
  {
    if name in s.records {
      SameIff(s.records[name].address, s.book[name].address);
      assert s.records[name := s.records[name]] == s.records;
    }
  }

  lemma PlainBackfilled(s: Stores, spec: Spec)
    requires spec.registered && spec.name in s.book
    ensures var o := BackfillDeployment(s, spec);
            && o.success && o.stores.records == s.records
            && spec.name in o.stores.book && o.stores.book - {spec.name} == s.book - {spec.name}
            && var e' := o.stores.book[spec.name];
               && e' == s.book[spec.name].(deployment := e'.deployment)
               && LaterWins(s.book[spec.name].deployment,
                            if spec.name in s.records then Some(s.records[spec.name]) else None,
                            if spec.artifact.Some? then spec.artifact.value.hash else "", e'.deployment)
  {
  }

  // ---------------------------------------------------------------- what is not synced

  /** Nothing happens without an address, for an address-only contract, or when the specification cannot be built. */
  lemma NotSynced(s: Stores, c: Chain.State, reg: Registration, name: string, own: Option<Artifact>)
    ensures var o := SyncComponent(s, c, reg, name, own);
            && (BuildSpec(reg, name, s.book, own).Err? ==> o == Outcome(s, false))
            && (BuildSpec(reg, name, s.book, own).Ok? ==>
                  if name !in s.book || s.book[name].address == "" || s.book[name].address == ZERO_ADDRESS
                  then o == Outcome(s, !reg.prerequisite)
                  else reg.addressOnly ==> o == Outcome(s, true))
  {
  }

  /** A proxy that cannot be read is a failure that changes nothing; one without code changes its entry only. */
  lemma ProxyFailures(s: Stores, c: Chain.State, reg: Registration, name: string, own: Option<Artifact>)
    requires name in s.book && reg.proxyType.Some? && BuildSpec(reg, name, s.book, own).Ok?
    requires s.book[name].address != "" && s.book[name].address != ZERO_ADDRESS && !reg.addressOnly
    ensures var o := SyncComponent(s, c, reg, name, own);
            && (Lower(s.book[name].address) !in c.proxies ==> o == Outcome(s, false))
            && (Lower(s.book[name].address) !in c.code ==> !o.success && o.stores.records == s.records)
  {
  }
}

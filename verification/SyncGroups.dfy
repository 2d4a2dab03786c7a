/** Syncing many contracts one after the other: when a whole pass leaves nothing for a second one to do. */
module SyncGroups {
  import opened Wrappers
  import opened Addresses
  import opened AddressBook
  import opened Rocketh
  import opened Sync
  import opened SyncProperties
  import opened Lifecycle
  import opened Truth
  import opened Convergence
  import opened Execution
  import Chain

  // ---------------------------------------------------------------- what a sync depends on

  lemma ImportAddressLocal(records: Records, records': Records, name: string, address: string, x: string)
    requires SameAt(records, records', x)
    ensures SameAt(ImportAddress(records, name, address), ImportAddress(records', name, address), x)
  {
  }

  lemma ImportProxyLocal(records: Records, records': Records, spec: Spec, x: string)
    requires spec.proxy.Some? && SameAt(records, records', x)
    ensures SameAt(ImportProxy(records, spec), ImportProxy(records', spec), x)
  {
    ImportAddressLocal(records, records', spec.name, spec.address, x);
    var r := ImportAddress(records, spec.name, spec.address);
    var r' := ImportAddress(records', spec.name, spec.address);
    ImportAddressLocal(r, r', ProxyName(spec.name), spec.address, x);
    ImportAddressLocal(ImportAddress(r, ProxyName(spec.name), spec.address),
                       ImportAddress(r', ProxyName(spec.name), spec.address),
                       spec.proxy.value.adminRecord, spec.proxy.value.adminAddress, x);
  }

  lemma ImplementationSyncLocal(s: Stores, s': Stores, c: Chain.State, name: string, own: Option<Artifact>)
    requires name in s.book && SameAt(s.book, s'.book, name) && SameAt(s.records, s'.records, ImplName(name))
    ensures var r, r' := SyncImplementation(s, c, name, own).stores, SyncImplementation(s', c, name, own).stores;
            SameAt(r.book, r'.book, name) && SameAt(r.records, r'.records, ImplName(name))
  {
  }

  /** The entry and the records a contract's sync reads and writes. */
  predicate SameCells(s: Stores, s': Stores, spec: Spec) {
    && SameAt(s.book, s'.book, spec.name) && SameAt(s.records, s'.records, spec.name)
    && (spec.proxy.Some? ==>
          && SameAt(s.records, s'.records, ProxyName(spec.name)) && SameAt(s.records, s'.records, ImplName(spec.name))
          && SameAt(s.records, s'.records, spec.proxy.value.adminRecord))
  }

  /** A specification as it is built from the book, with record names that do not clash. */
  predicate BuiltFrom(spec: Spec, book: Book) {
    && spec.registered && spec.name in book && spec.address == book[spec.name].address
    && (spec.proxy.Some? ==>
          && spec.proxy.value.bookImpl == book[spec.name].implementation
          && spec.proxy.value.bookPending == PendingAddress(book[spec.name])
          && spec.proxy.value.adminRecord !in {spec.name, ProxyName(spec.name), ImplName(spec.name)})
  }

  lemma ProxySyncLocal(s: Stores, s': Stores, c: Chain.State, spec: Spec)
    requires spec.proxy.Some? && BuiltFrom(spec, s.book) && SameCells(s, s', spec)
    ensures SameCells(SyncProxy(s, c, spec).stores, SyncProxy(s', c, spec).stores, spec)
  {
    var name, admin := spec.name, spec.proxy.value.adminRecord;
    var read := Chain.ReadImplementation(c, spec.address);
    if read.Some? && Chain.HasCode(c, spec.address) {
      DerivedNamesDistinct(name);
      ReconcileSettles(s.book, name, spec.proxy.value, read.value);
      ReconcileSettles(s'.book, name, spec.proxy.value, read.value);
      var s1, s1' := BeforeImplementation(s, spec, read.value), BeforeImplementation(s', spec, read.value);
      BeforeImplementationLocal(s, s', spec, read.value);
      ImplementationSyncLocal(s1, s1', c, name, spec.artifact);
      forall x | x in {name, ProxyName(name), admin}
        ensures SameAt(SyncImplementation(s1, c, name, spec.artifact).stores.records,
                       SyncImplementation(s1', c, name, spec.artifact).stores.records, x)
      {
        ImplementationSyncFrameAt(s1, c, name, spec.artifact, x);
        ImplementationSyncFrameAt(s1', c, name, spec.artifact, x);
      }
    }
  }

  lemma BeforeImplementationLocal(s: Stores, s': Stores, spec: Spec, onChain: string)
    requires spec.proxy.Some? && BuiltFrom(spec, s.book) && SameCells(s, s', spec)
    ensures SameCells(BeforeImplementation(s, spec, onChain), BeforeImplementation(s', spec, onChain), spec)
  {
    ImportProxyLocal(s.records, s'.records, spec, spec.name);
    ImportProxyLocal(s.records, s'.records, spec, ProxyName(spec.name));
    ImportProxyLocal(s.records, s'.records, spec, ImplName(spec.name));
    ImportProxyLocal(s.records, s'.records, spec, spec.proxy.value.adminRecord);
    var r := ImportAddress(s.records, spec.name, spec.address);
    var r' := ImportAddress(s'.records, spec.name, spec.address);
    ImportAddressLocal(s.records, s'.records, spec.name, spec.address, ProxyName(spec.name));
    ImportAddressLocal(r, r', ProxyName(spec.name), spec.address, ProxyName(spec.name));
  }

  lemma PlainSyncLocal(s: Stores, s': Stores, c: Chain.State, spec: Spec)
    requires spec.proxy.None? && BuiltFrom(spec, s.book) && SameCells(s, s', spec)
    ensures SameCells(SyncPlain(s, c, spec).stores, SyncPlain(s', c, spec).stores, spec)
  {
  }

  // ---------------------------------------------------------------- a contract with nothing left to sync

  predicate Stays(s: Stores, c: Chain.State, spec: Spec) {
    SyncContract(s, c, spec).stores == s
  }

  lemma SameEverywhere<V>(m: map<string, V>, m': map<string, V>)
    requires forall x :: SameAt(m, m', x)
    ensures m == m'
  {
    forall x ensures x in m <==> x in m' {
      assert SameAt(m, m', x);
    }
    forall x | x in m ensures m[x] == m'[x] {
      assert SameAt(m, m', x);
    }
  }

  /** A contract with nothing left to sync stays so as long as nothing it depends on changes. */
  lemma StaysLocal(s: Stores, s': Stores, c: Chain.State, spec: Spec)
    requires BuiltFrom(spec, s.book) && SameCells(s, s', spec) && Stays(s, c, spec)
    ensures Stays(s', c, spec)
  {
    if !NoAddress(spec.address) && !spec.addressOnly {
      var r' := SyncContract(s', c, spec).stores;
      if spec.proxy.Some? {
        ProxySyncLocal(s, s', c, spec);
        forall x ensures SameAt(s'.book, r'.book, x) && SameAt(s'.records, r'.records, x) {
          ProxySyncFrame(s', c, spec, x);
        }
      } else {
        PlainSyncLocal(s, s', c, spec);
        PlainSyncFrame(s', c, spec);
        forall x ensures SameAt(s'.book, r'.book, x) && SameAt(s'.records, r'.records, x) {
        }
      }
      SameEverywhere(s'.book, r'.book);
      SameEverywhere(s'.records, r'.records);
    }
  }

  // ---------------------------------------------------------------- which contracts write which records

  /** The sync gets as far as writing records. */
  predicate Effective(c: Chain.State, spec: Spec) {
    && !NoAddress(spec.address) && !spec.addressOnly && Chain.HasCode(c, spec.address)
    && (spec.proxy.Some? ==> Chain.ReadImplementation(c, spec.address).Some?)
  }

  /** The address a contract's sync wants a record to have; the implementation record is its own affair. */
  function ClaimOf(spec: Spec, x: string): Option<string> {
    if x == spec.name || (spec.proxy.Some? && x == ProxyName(spec.name)) then Some(spec.address)
    else if spec.proxy.Some? && x == spec.proxy.value.adminRecord then Some(spec.proxy.value.adminAddress)
    else None
  }

  predicate Held(records: Records, x: string, address: string) {
    x in records && Same(records[x].address, address)
  }

  lemma ProxyRecordsAfter(s: Stores, c: Chain.State, spec: Spec, x: string)
    requires spec.proxy.Some? && BuiltFrom(spec, s.book) && Effective(c, spec) && ClaimOf(spec, x).Some?
    ensures x != ImplName(spec.name)
    ensures SameAt(ImportProxy(s.records, spec), SyncProxy(s, c, spec).stores.records, x)
  {
    DerivedNamesDistinct(spec.name);
    var read := Chain.ReadImplementation(c, spec.address).value;
    ReconcileSettles(s.book, spec.name, spec.proxy.value, read);
    ImplementationSyncFrameAt(BeforeImplementation(s, spec, read), c, spec.name, spec.artifact, x);
  }

  lemma ImportProxyAt(records: Records, spec: Spec, x: string)
    requires spec.proxy.Some? && ClaimOf(spec, x).Some?
    requires spec.proxy.value.adminRecord !in {spec.name, ProxyName(spec.name), ImplName(spec.name)}
    ensures SameAt(ImportAddress(records, x, ClaimOf(spec, x).value), ImportProxy(records, spec), x)
  {
    DerivedNamesDistinct(spec.name);
  }

  /** A record that has the claimed address already is left alone. */
  lemma HeldKept(s: Stores, c: Chain.State, spec: Spec, x: string)
    requires BuiltFrom(spec, s.book) && Effective(c, spec) && ClaimOf(spec, x).Some?
    requires Held(s.records, x, ClaimOf(spec, x).value)
    ensures SameAt(s.records, SyncContract(s, c, spec).stores.records, x)
  {
    if spec.proxy.Some? {
      ProxyRecordsAfter(s, c, spec, x);
      ImportProxyAt(s.records, spec, x);
    }
  }

  /** Where nothing is left to sync, the records have the claimed addresses. */
  lemma StaysHeld(s: Stores, c: Chain.State, spec: Spec, x: string)
    requires BuiltFrom(spec, s.book) && Effective(c, spec) && ClaimOf(spec, x).Some? && Stays(s, c, spec)
    requires spec.proxy.Some? || x in s.records
    ensures Held(s.records, x, ClaimOf(spec, x).value)
  {
    if spec.proxy.Some? {
      ProxyRecordsAfter(s, c, spec, x);
      ImportProxyAt(s.records, spec, x);
    }
  }

  /** A contract without a proxy has nothing to do with a record that carries its address only. */
  lemma BareStays(s: Stores, c: Chain.State, spec: Spec)
    requires spec.proxy.None? && BuiltFrom(spec, s.book) && Held(s.records, spec.name, spec.address)
    requires s.records[spec.name].argsData == "0x"
    ensures Stays(s, c, spec)
  {
  }

  /** No record one of them touches is the implementation record of the other. */
  predicate ImplementationsApart(n: Spec, m: Spec) {
    && n.name != m.name
    && (m.proxy.Some? ==> ClaimOf(n, ImplName(m.name)).None?)
    && (m.proxy.Some? && n.proxy.Some? ==> ImplName(n.name) != ImplName(m.name))
    && (n.proxy.Some? ==> ClaimOf(m, ImplName(n.name)).None?)
  }

  /** Where both want a record, they want the same address. */
  ghost predicate Agreed(n: Spec, m: Spec) {
    forall x :: ClaimOf(n, x).Some? && ClaimOf(m, x).Some? ==> Same(ClaimOf(n, x).value, ClaimOf(m, x).value)
  }

  /** What a sync does not touch, in terms of claims. */
  lemma UnclaimedKept(s: Stores, c: Chain.State, m: Spec, x: string)
    requires BuiltFrom(m, s.book) && ClaimOf(m, x).None? && (m.proxy.Some? ==> x != ImplName(m.name))
    ensures SameAt(s.records, SyncContract(s, c, m).stores.records, x)
  {
    if m.proxy.Some? {
      ProxySyncFrame(s, c, m, x);
    } else {
      PlainSyncFrame(s, c, m);
    }
  }

  lemma OtherEntryKept(s: Stores, c: Chain.State, m: Spec, n: string)
    requires BuiltFrom(m, s.book) && n != m.name
    ensures SameAt(s.book, SyncContract(s, c, m).stores.book, n)
  {
    if m.proxy.Some? {
      ProxySyncFrame(s, c, m, n);
    } else {
      PlainSyncFrame(s, c, m);
    }
  }

  lemma IneffectiveRecords(s: Stores, c: Chain.State, m: Spec)
    requires BuiltFrom(m, s.book) && !Effective(c, m)
    ensures SyncContract(s, c, m).stores.records == s.records
  {
  }

  lemma IneffectiveStays(s: Stores, s': Stores, c: Chain.State, n: Spec)
    requires BuiltFrom(n, s.book) && !Effective(c, n) && Stays(s, c, n) && SameAt(s.book, s'.book, n.name)
    ensures Stays(s', c, n)
  {
    if n.proxy.Some? && Chain.ReadImplementation(c, n.address).Some? {
      var read := Chain.ReadImplementation(c, n.address).value;
      ReconcileSettles(s.book, n.name, n.proxy.value, read);
      ReconcileSettles(s'.book, n.name, n.proxy.value, read);
    }
  }

  /** One record of the settled contract `n`, across the sync of `m`. */
  lemma CellKept(s: Stores, c: Chain.State, n: Spec, m: Spec, x: string)
    requires BuiltFrom(n, s.book) && BuiltFrom(m, s.book) && Effective(c, n) && Effective(c, m)
    requires ImplementationsApart(n, m) && Agreed(n, m) && Stays(s, c, n)
    requires ClaimOf(n, x).Some? || (n.proxy.Some? && x == ImplName(n.name))
    requires n.proxy.Some? || x in s.records || ClaimOf(m, x).None?
    ensures SameAt(s.records, SyncContract(s, c, m).stores.records, x)
  {
    if ClaimOf(m, x).None? {
      UnclaimedKept(s, c, m, x);
    } else {
      StaysHeld(s, c, n, x);
      HeldKept(s, c, m, x);
    }
  }

  /** The record of a contract whose seeding was refused, first written for a proxy it administers. */
  lemma AdoptedStays(s: Stores, c: Chain.State, n: Spec, m: Spec)
    requires BuiltFrom(n, s.book) && BuiltFrom(m, s.book) && Effective(c, n) && Effective(c, m)
    requires n.name != m.name && Agreed(n, m)
    requires n.proxy.None? && n.name !in s.records && ClaimOf(m, n.name).Some?
    ensures Stays(SyncContract(s, c, m).stores, c, n)
  {
    ProxyRecordsAfter(s, c, m, n.name);
    ImportProxyAt(s.records, m, n.name);
    OtherEntryKept(s, c, m, n.name);
    assert ClaimOf(n, n.name) == Some(n.address);
    BareStays(SyncContract(s, c, m).stores, c, n);
  }

  /** A contract with nothing left to sync stays so when another one is synced that agrees on common records. */
  lemma OtherSyncStays(s: Stores, c: Chain.State, n: Spec, m: Spec)
    requires BuiltFrom(n, s.book) && BuiltFrom(m, s.book) && ImplementationsApart(n, m) && Stays(s, c, n)
    requires Effective(c, n) && Effective(c, m) ==> Agreed(n, m)
    ensures Stays(SyncContract(s, c, m).stores, c, n)
  {
    var s' := SyncContract(s, c, m).stores;
    OtherEntryKept(s, c, m, n.name);
    if !Effective(c, m) {
      IneffectiveRecords(s, c, m);
      StaysLocal(s, s', c, n);
    } else if !Effective(c, n) {
      IneffectiveStays(s, s', c, n);
    } else if n.proxy.None? && n.name !in s.records && ClaimOf(m, n.name).Some? {
      AdoptedStays(s, c, n, m);
    } else {
      CellKept(s, c, n, m, n.name);
      if n.proxy.Some? {
        CellKept(s, c, n, m, ProxyName(n.name));
        CellKept(s, c, n, m, ImplName(n.name));
        CellKept(s, c, n, m, n.proxy.value.adminRecord);
      }
      StaysLocal(s, s', c, n);
    }
  }

  /** With nothing left to sync for either, they agree: records two contracts want are written by a proxy. */
  lemma BothStayAgreed(s: Stores, c: Chain.State, n: Spec, m: Spec)
    requires BuiltFrom(n, s.book) && BuiltFrom(m, s.book) && Effective(c, n) && Effective(c, m)
    requires n.name != m.name && Stays(s, c, n) && Stays(s, c, m)
    ensures Agreed(n, m)
  {
    forall x | ClaimOf(n, x).Some? && ClaimOf(m, x).Some? ensures Same(ClaimOf(n, x).value, ClaimOf(m, x).value) {
      if n.proxy.Some? {
        StaysHeld(s, c, n, x);
        StaysHeld(s, c, m, x);
      } else {
        StaysHeld(s, c, m, x);
        StaysHeld(s, c, n, x);
      }
    }
  }

  /** The record names of two proxies overlap in that of their admin at most. */
  predicate OnlyAdminCommon(a: Spec, b: Spec)
    requires a.proxy.Some? && b.proxy.Some?
  {
    && {a.name, ProxyName(a.name)} !! {b.name, ProxyName(b.name), b.proxy.value.adminRecord}
    && a.proxy.value.adminRecord !in {b.name, ProxyName(b.name)}
  }

  /** Two proxies agree exactly if they have different admin records or the same admin. */
  lemma ProxiesAgreeIff(a: Spec, b: Spec)
    requires a.proxy.Some? && b.proxy.Some? && OnlyAdminCommon(a, b)
    requires a.proxy.value.adminRecord !in {a.name, ProxyName(a.name)}
    requires b.proxy.value.adminRecord !in {b.name, ProxyName(b.name)}
    ensures Agreed(a, b)
       <==> (a.proxy.value.adminRecord == b.proxy.value.adminRecord ==>
               Same(a.proxy.value.adminAddress, b.proxy.value.adminAddress))
  {
    var x := a.proxy.value.adminRecord;
    assert ClaimOf(a, x) == Some(a.proxy.value.adminAddress);
    if x == b.proxy.value.adminRecord {
      assert ClaimOf(b, x) == Some(b.proxy.value.adminAddress);
    }
  }

  // ---------------------------------------------------------------- a whole pass

  /** What a contract's sync is about does not change while others are synced: addresses and admins stay. */
  predicate SameStatics(book: Book, book': Book) {
    && book'.Keys == book.Keys
    && forall n <- book :: book'[n].address == book[n].address && book'[n].proxyAdmin == book[n].proxyAdmin
  }

  lemma StaticSpec(reg: Registration, name: string, book: Book, book': Book, own: Option<Artifact>)
    requires SameStatics(book, book')
    ensures var r, r' := BuildSpec(reg, name, book, own), BuildSpec(reg, name, book', own);
            && r.Ok? == r'.Ok?
            && (r.Ok? ==>
                  && r'.value.address == r.value.address && r'.value.addressOnly == r.value.addressOnly
                  && r'.value.proxy.Some? == r.value.proxy.Some?
                  && (r.value.proxy.Some? ==>
                        && r'.value.proxy.value.adminAddress == r.value.proxy.value.adminAddress
                        && r'.value.proxy.value.adminRecord == r.value.proxy.value.adminRecord))
  {
  }

  /** A sync of a contract in the registry, as a sync of its specification. */
  predicate Settled(R: Registry, s: Stores, c: Chain.State, name: string, own: Option<Artifact>)
    requires name in R
  {
    SyncComponent(s, c, R[name], name, own).stores == s
  }

  lemma SyncKeepsStatics(R: Registry, s: Stores, c: Chain.State, name: string, own: Option<Artifact>)
    requires name in R
    ensures SameStatics(s.book, SyncComponent(s, c, R[name], name, own).stores.book)
  {
    var built := BuildSpec(R[name], name, s.book, own);
    if built.Ok? && !NoAddress(built.value.address) && !built.value.addressOnly {
      var spec := built.value;
      if spec.proxy.None? {
        PlainSyncFrame(s, c, spec);
      } else if Chain.ReadImplementation(c, spec.address).Some? {
        var read := Chain.ReadImplementation(c, spec.address).value;
        ReconcileSettles(s.book, name, spec.proxy.value, read);
        var book := Reconcile(s.book, name, spec.proxy.value, read).value;
        SyncKeepsLatest(s, c, spec, book, read);
        SameElsewhereStatics(s.book, SyncProxy(s, c, spec).stores.book, name);
      }
    }
  }

  lemma SameElsewhereStatics(book: Book, book': Book, name: string)
    requires name in book && book'.Keys == book.Keys && SameElsewhere(book, book', name)
    requires book'[name].address == book[name].address && book'[name].proxyAdmin == book[name].proxyAdmin
    ensures SameStatics(book, book')
  {
    forall n | n in book && n != name ensures book'[n] == book[n] {
      assert (book' - {name})[n] == (book - {name})[n];
    }
  }

  lemma SyncedAllKeepsStatics(R: Registry, s: Stores, c: Chain.State, names: seq<string>,
                              own: string -> Option<Artifact>)
    requires forall n <- names :: n in R
    ensures SameStatics(s.book, SyncedAll(s, c, R, names, own).book)
  {
    if names != [] {
      var init, last := names[..|names| - 1], names[|names| - 1];
      assert last in names && forall n <- init :: n in names;
      SyncedAllKeepsStatics(R, s, c, init, own);
      SyncKeepsStatics(R, SyncedAll(s, c, R, init, own), c, last, own(last));
    }
  }

  /** The same entry and the same statics give the same specification. */
  lemma SpecKept(reg: Registration, name: string, book: Book, book': Book, own: Option<Artifact>)
    requires SameStatics(book, book') && SameAt(book, book', name)
    ensures BuildSpec(reg, name, book', own) == BuildSpec(reg, name, book, own)
  {
  }

  /** All specifications are built before the first sync; a pass starts only if none fails. */
  function Specs(R: Registry, book: Book, names: seq<string>, own: string -> Option<Artifact>): (specs: seq<Spec>)
    requires forall n <- names :: n in R && BuildSpec(R[n], n, book, own(n)).Ok?
    ensures |specs| == |names|
  {
    seq(|names|, i requires 0 <= i < |names| => BuildSpec(R[names[i]], names[i], book, own(names[i])).value)
  }

  lemma SpecsSnoc(R: Registry, book: Book, names: seq<string>, own: string -> Option<Artifact>)
    requires names != [] && forall n <- names :: n in R && BuildSpec(R[n], n, book, own(n)).Ok?
    ensures var n := |names| - 1;
            && (forall m <- names[..n] :: m in names)
            && Specs(R, book, names, own)[..n] == Specs(R, book, names[..n], own)
            && Specs(R, book, names, own)[n] == BuildSpec(R[names[n]], names[n], book, own(names[n])).value
  {
  }

  /** An entry changes in its own sync only. */
  lemma EntryKept(R: Registry, s: Stores, c: Chain.State, n: string, own: Option<Artifact>, m: string)
    requires n in R && m != n
    ensures SameAt(s.book, SyncComponent(s, c, R[n], n, own).stores.book, m)
  {
    var built := BuildSpec(R[n], n, s.book, own);
    if built.Ok? && !NoAddress(built.value.address) && !built.value.addressOnly {
      if built.value.proxy.Some? {
        ProxySyncFrame(s, c, built.value, m);
      } else {
        PlainSyncFrame(s, c, built.value);
      }
    }
  }

  lemma {:induction false} OtherEntriesKept(R: Registry, s: Stores, c: Chain.State, names: seq<string>,
                                            own: string -> Option<Artifact>, m: string)
    requires (forall n <- names :: n in R) && m !in names
    ensures SameAt(s.book, SyncedAll(s, c, R, names, own).book, m)
  {
    if names != [] {
      var init, last := names[..|names| - 1], names[|names| - 1];
      assert last in names && forall n <- init :: n in names;
      OtherEntriesKept(R, s, c, init, own, m);
      EntryKept(R, SyncedAll(s, c, R, init, own), c, last, own(last), m);
    }
  }

  /** Building the specifications first makes no difference: a pass is one sync of each contract as it then is. */
  lemma {:induction false} SpecsBuiltFirst(R: Registry, s: Stores, c: Chain.State, names: seq<string>,
                                           own: string -> Option<Artifact>)
    requires Distinct(names) && forall n <- names :: n in R && BuildSpec(R[n], n, s.book, own(n)).Ok?
    ensures GroupSynced(s, c, Specs(R, s.book, names, own)) == SyncedAll(s, c, R, names, own)
  {
    if names != [] {
      var init, last := names[..|names| - 1], names[|names| - 1];
      assert init + [last] == names && last !in init && last in names && forall n <- init :: n in names;
      SpecsBuiltFirst(R, s, c, init, own);
      SpecsSnoc(R, s.book, names, own);
      OtherEntriesKept(R, s, c, init, own, last);
      SyncedAllKeepsStatics(R, s, c, init, own);
      SpecKept(R[last], last, s.book, SyncedAll(s, c, R, init, own).book, own(last));
    }
  }

  /** Two contracts whose syncs both write records want the same address for every common one. */
  ghost predicate Concordant(R: Registry, book: Book, c: Chain.State, n: string, m: string)
    requires n in R && m in R
  {
    var a, b := BuildSpec(R[n], n, book, None), BuildSpec(R[m], m, book, None);
    a.Ok? && b.Ok? && Effective(c, a.value) && Effective(c, b.value) ==> Agreed(a.value, b.value)
  }

  lemma SameClaims(a: Spec, a': Spec, x: string)
    requires a'.name == a.name && a'.address == a.address && a'.proxy.Some? == a.proxy.Some?
    requires a.proxy.Some? ==> a'.proxy.value.adminAddress == a.proxy.value.adminAddress
                               && a'.proxy.value.adminRecord == a.proxy.value.adminRecord
    ensures ClaimOf(a', x) == ClaimOf(a, x)
  {
  }

  lemma SpecAlike(R: Registry, book: Book, book': Book, c: Chain.State, n: string, own: Option<Artifact>)
    requires n in R && SameStatics(book, book')
    ensures var a, a' := BuildSpec(R[n], n, book, None), BuildSpec(R[n], n, book', own);
            && a.Ok? == a'.Ok?
            && (a.Ok? ==> (Effective(c, a.value) <==> Effective(c, a'.value))
                          && forall x :: ClaimOf(a'.value, x) == ClaimOf(a.value, x))
  {
    var a, a' := BuildSpec(R[n], n, book, None), BuildSpec(R[n], n, book', own);
    StaticSpec(R[n], n, book, book', own);
    if a.Ok? {
      forall x ensures ClaimOf(a'.value, x) == ClaimOf(a.value, x) {
        SameClaims(a.value, a'.value, x);
      }
    }
  }

  lemma AgreedAlike(a: Spec, a': Spec, b: Spec, b': Spec)
    requires forall x :: ClaimOf(a', x) == ClaimOf(a, x) && ClaimOf(b', x) == ClaimOf(b, x)
    ensures Agreed(a', b') <==> Agreed(a, b)
  {
    forall x ensures (ClaimOf(a', x).Some? && ClaimOf(b', x).Some? ==>
                        Same(ClaimOf(a', x).value, ClaimOf(b', x).value))
                <==> (ClaimOf(a, x).Some? && ClaimOf(b, x).Some? ==> Same(ClaimOf(a, x).value, ClaimOf(b, x).value)) {
      assert ClaimOf(a', x) == ClaimOf(a, x) && ClaimOf(b', x) == ClaimOf(b, x);
    }
  }

  /** Neither the metadata nor the artifacts at hand matter for that. */
  lemma ConcordantKept(R: Registry, book: Book, book': Book, c: Chain.State, n: string, m: string,
                       own: string -> Option<Artifact>)
    requires n in R && m in R && SameStatics(book, book')
    ensures var a, b := BuildSpec(R[n], n, book', own(n)), BuildSpec(R[m], m, book', own(m));
            Concordant(R, book, c, n, m)
            <==> (a.Ok? && b.Ok? && Effective(c, a.value) && Effective(c, b.value) ==> Agreed(a.value, b.value))
  {
    var a, b := BuildSpec(R[n], n, book, None), BuildSpec(R[m], m, book, None);
    var a', b' := BuildSpec(R[n], n, book', own(n)), BuildSpec(R[m], m, book', own(m));
    SpecAlike(R, book, book', c, n, own(n));
    SpecAlike(R, book, book', c, m, own(m));
    if a.Ok? && b.Ok? {
      AgreedAlike(a.value, a'.value, b.value, b'.value);
    }
  }

  lemma SpecBuiltFrom(R: Registry, name: string, book: Book, own: Option<Artifact>)
    requires WellFormed(R) && name in R && name in book && BuildSpec(R[name], name, book, own).Ok?
    ensures BuiltFrom(BuildSpec(R[name], name, book, own).value, book)
  {
    if Proxied(R, name) {
      RecordsApart(R, name, name);
    }
  }

  lemma SpecsApart(R: Registry, n: string, m: string, book: Book, own: string -> Option<Artifact>)
    requires WellFormed(R) && n in R && m in R && n != m
    requires BuildSpec(R[n], n, book, own(n)).Ok? && BuildSpec(R[m], m, book, own(m)).Ok?
    ensures ImplementationsApart(BuildSpec(R[n], n, book, own(n)).value, BuildSpec(R[m], m, book, own(m)).value)
  {
    if Proxied(R, n) && Proxied(R, m) {
      RecordsApart(R, n, m);
      RecordsApart(R, m, n);
    }
  }

  lemma OwnSyncSettles(R: Registry, s: Stores, c: Chain.State, name: string, own: Option<Artifact>)
    requires WellFormed(R) && name in R
    ensures Settled(R, SyncComponent(s, c, R[name], name, own).stores, c, name, own)
  {
    if name in s.book {
      if R[name].proxyType.None? {
        PlainSyncIdempotent(s, c, R[name], name, own);
      } else {
        RecordsApart(R, name, name);
        SyncIdempotent(s, c, R[name], name, own);
      }
    }
  }

  lemma OtherSyncSettled(R: Registry, s: Stores, c: Chain.State, n: string, m: string, own: string -> Option<Artifact>)
    requires WellFormed(R) && n in R && m in R && n != m && Settled(R, s, c, n, own(n))
    requires Concordant(R, s.book, c, n, m)
    ensures Settled(R, SyncComponent(s, c, R[m], m, own(m)).stores, c, n, own(n))
  {
    var a, b := BuildSpec(R[n], n, s.book, own(n)), BuildSpec(R[m], m, s.book, own(m));
    var s' := SyncComponent(s, c, R[m], m, own(m)).stores;
    SyncKeepsStatics(R, s, c, m, own(m));
    StaticSpec(R[n], n, s.book, s'.book, own(n));
    if n in s.book && m in s.book && a.Ok? && b.Ok? {
      SpecBuiltFrom(R, n, s.book, own(n));
      SpecBuiltFrom(R, m, s.book, own(m));
      SpecsApart(R, n, m, s.book, own);
      ConcordantKept(R, s.book, s.book, c, n, m, own);
      OtherSyncStays(s, c, a.value, b.value);
      OtherEntryKept(s, c, b.value, n);
      SpecKept(R[n], n, s.book, s'.book, own(n));
    }
  }

  lemma BothSettledConcordant(R: Registry, s: Stores, c: Chain.State, n: string, m: string,
                              own: string -> Option<Artifact>)
    requires WellFormed(R) && n in R && m in R && n != m
    requires Settled(R, s, c, n, own(n)) && Settled(R, s, c, m, own(m))
    ensures Concordant(R, s.book, c, n, m)
  {
    var a, b := BuildSpec(R[n], n, s.book, own(n)), BuildSpec(R[m], m, s.book, own(m));
    ConcordantKept(R, s.book, s.book, c, n, m, own);
    if n in s.book && m in s.book && a.Ok? && b.Ok? && Effective(c, a.value) && Effective(c, b.value) {
      SpecBuiltFrom(R, n, s.book, own(n));
      SpecBuiltFrom(R, m, s.book, own(m));
      BothStayAgreed(s, c, a.value, b.value);
    }
  }

  ghost predicate AllSettled(R: Registry, s: Stores, c: Chain.State, names: seq<string>,
                             own: string -> Option<Artifact>)
    requires forall n <- names :: n in R
  {
    forall n <- names :: Settled(R, s, c, n, own(n))
  }

  ghost predicate AllConcordant(R: Registry, book: Book, c: Chain.State, names: seq<string>)
    requires forall n <- names :: n in R
  {
    forall n <- names, m <- names :: n != m ==> Concordant(R, book, c, n, m)
  }

  lemma {:induction false} ConcordantPassSettles(R: Registry, s: Stores, c: Chain.State, names: seq<string>,
                                                 own: string -> Option<Artifact>)
    requires WellFormed(R) && (forall n <- names :: n in R) && Distinct(names) && AllConcordant(R, s.book, c, names)
    ensures AllSettled(R, SyncedAll(s, c, R, names, own), c, names, own)
  {
    if names != [] {
      var init, last := names[..|names| - 1], names[|names| - 1];
      assert init + [last] == names && last !in init && last in names && forall n <- init :: n in names;
      ConcordantPassSettles(R, s, c, init, own);
      var s1 := SyncedAll(s, c, R, init, own);
      SyncedAllKeepsStatics(R, s, c, init, own);
      forall n | n in names ensures Settled(R, SyncComponent(s1, c, R[last], last, own(last)).stores, c, n, own(n)) {
        if n == last {
          OwnSyncSettles(R, s1, c, last, own(last));
        } else {
          ConcordantOnceMore(R, s.book, s1.book, c, n, last);
          OtherSyncSettled(R, s1, c, n, last, own);
        }
      }
    }
  }

  lemma ConcordantOnceMore(R: Registry, book: Book, book': Book, c: Chain.State, n: string, m: string)
    requires n in R && m in R && SameStatics(book, book')
    ensures Concordant(R, book', c, n, m) <==> Concordant(R, book, c, n, m)
  {
    ConcordantKept(R, book, book', c, n, m, x => None);
  }

  /**
   * After a pass over any contracts with distinct names, none of them has anything left to sync if and
   * only if those whose syncs write a common record, such as that of a common admin, agree on its
   * address. Otherwise every pass ends with a contract left to sync.
   */
  lemma PassSettlesIff(R: Registry, s: Stores, c: Chain.State, names: seq<string>, own: string -> Option<Artifact>)
    requires WellFormed(R) && (forall n <- names :: n in R) && Distinct(names)
    ensures AllSettled(R, SyncedAll(s, c, R, names, own), c, names, own) <==> AllConcordant(R, s.book, c, names)
  {
    var r := SyncedAll(s, c, R, names, own);
    if AllConcordant(R, s.book, c, names) {
      ConcordantPassSettles(R, s, c, names, own);
    } else if AllSettled(R, r, c, names, own) {
      SyncedAllKeepsStatics(R, s, c, names, own);
      forall n, m | n in names && m in names && n != m ensures Concordant(R, s.book, c, n, m) {
        BothSettledConcordant(R, r, c, n, m, own);
        ConcordantOnceMore(R, s.book, r.book, c, n, m);
      }
    }
  }

  /** With nothing left to sync, syncing any of them again, in any order and any number of times, changes nothing. */
  lemma {:induction false} SettledPass(R: Registry, s: Stores, c: Chain.State, names: seq<string>, again: seq<string>,
                                       own: string -> Option<Artifact>)
    requires (forall n <- names :: n in R) && AllSettled(R, s, c, names, own) && forall n <- again :: n in names
    ensures SyncedAll(s, c, R, again, own) == s
  {
    if again != [] {
      var init, last := again[..|again| - 1], again[|again| - 1];
      assert last in again && forall n <- init :: n in again;
      SettledPass(R, s, c, names, init, own);
    }
  }

  /** A pass over contracts that agree leaves nothing for later passes over any of them. */
  lemma PassIdempotent(R: Registry, s: Stores, c: Chain.State, names: seq<string>, again: seq<string>,
                       own: string -> Option<Artifact>)
    requires WellFormed(R) && (forall n <- names :: n in R) && Distinct(names) && AllConcordant(R, s.book, c, names)
    requires forall n <- again :: n in names
    ensures var r := SyncedAll(s, c, R, names, own);
            SyncedAll(r, c, R, again, own) == r
  {
    ConcordantPassSettles(R, s, c, names, own);
    SettledPass(R, SyncedAll(s, c, R, names, own), c, names, again, own);
  }
}

/** Turning pending implementations into governance transactions. */
module Upgrade {
  import opened Wrappers
  import opened Addresses
  import opened AddressBook
  import opened Rocketh
  import opened Sync
  import opened Bundles
  import Chain

  const SUFFIX: string := "_Implementation"

  /** The contract name behind a shared implementation's record name. */
  function StripSuffix(s: string): string {
    if |s| >= |SUFFIX| && s[|s| - |SUFFIX|..] == SUFFIX then s[..|s| - |SUFFIX|] else s
  }

  /** The record a proxy with a shared implementation follows. */
  function SharedRecordName(reg: Registration): Option<string> {
    if Truthy(reg.sharedImplementation) && StripSuffix(reg.sharedImplementation.value) != ""
    then Some(ImplName(StripSuffix(reg.sharedImplementation.value))) else None
  }

  predicate HasPending(e: Entry) {
    e.pending.Some? && e.pending.value.address != ""
  }

  /** Nothing pending: a shared implementation that moved becomes pending. `None` when the script throws. */
  function WithSharedPending(s: Stores, c: Chain.State, reg: Registration, name: string): Option<Book> {
    if name !in s.book then None
    else
      var e := s.book[name];
      var shared := SharedRecordName(reg);
      if HasPending(e) || shared.None? || e.address == "" || shared.value !in s.records then Some(s.book)
      else
        var impl := s.records[shared.value].address;
        var read := Chain.ReadImplementation(c, e.address);
        if read.None? then None
        else if Same(read.value, impl) then Some(s.book)
        else if shared.value !in s.book || s.book[shared.value].ActiveMetadata().None? || e.proxy.None? then None
        else
          Some(s.book[name := e.(pending := Some(Pending(impl, s.book[shared.value].ActiveMetadata().value)))])
  }

  /** The admin the transactions go to. */
  function AdminFor(reg: Registration, e: Entry, book: Book): Option<string> {
    var admin := ProxyAdminAddress(reg, e, book);
    if Truthy(admin) then admin else None
  }

  function Note(contractName: string, toLabel: string, signature: string, notes: string): TxMetadata {
    Described(toLabel, contractName, signature, notes)
  }

  /** One call upgrades a transparent proxy; a Graph proxy needs the upgrade and its acceptance. */
  function UpgradeItems(name: string, kind: Chain.ProxyType, admin: string, proxy: string,
                        impl: string): (items: seq<Item>)
    ensures AllPadded(items) && items != []
  {
    match kind
    case Transparent =>
      [Item(Tx(admin, "0", Chain.UpgradeAndCall(proxy, impl), true),
            Note(name, name + "_ProxyAdmin", "upgradeAndCall(address,address,bytes)", "single step"))]
    case Graph =>
      [Item(Tx(admin, "0", Chain.Upgrade(proxy, impl), true),
            Note(name, "GraphProxyAdmin", "upgrade(address,address)", "step 1/2")),
       Item(Tx(admin, "0", Chain.AcceptProxy(impl, proxy), true),
            Note(name, "GraphProxyAdmin", "acceptProxy(address,address)", "step 2/2"))]
  }

  datatype UpgradeOutcome = Thrown(book: Book) | NotNeeded(book: Book) | Built(book: Book, items: seq<Item>)

  function UpgradeBuilt(s: Stores, c: Chain.State, reg: Registration, name: string): UpgradeOutcome {
    match WithSharedPending(s, c, reg, name)
    case None => Thrown(s.book)
    case Some(book) =>
      var e := book[name];
      if !HasPending(e) then NotNeeded(book)
      else
        match AdminFor(reg, e, book)
        case None => Thrown(book)
        case Some(admin) =>
          Built(book, UpgradeItems(name, reg.proxyType.GetOr(Chain.Graph), admin, e.address, e.pending.value.address))
  }

  function UpgradeSlot(name: string): string { "upgrade-" + name }

  /** The directory after `upgradeImplementation`: the slot is claimed first, and filled only if there is an upgrade. */
  function UpgradeSaved(d: Dir, name: string, u: UpgradeOutcome): Dir {
    var d1 := Claimed(d, UpgradeSlot(name));
    if u.Built? then d1.(top := d1.top[FileName(UpgradeSlot(name)) := Saved(u.items, None)]) else d1
  }

  class Upgrader {
    const book: AddressBookOps
    const env: Environment
    const files: TxDirectory

    constructor (book: AddressBookOps, env: Environment, files: TxDirectory)
      ensures this.book == book && this.env == env && this.files == files
    {
      this.book, this.env, this.files := book, env, files;
    }

    method SetSharedPending(c: Chain.State, reg: Registration, name: string) returns (ok: bool)
      modifies book
      ensures var r := WithSharedPending(Stores(old(book.entries), env.records), c, reg, name);
              ok == r.Some? && book.entries == r.GetOr(old(book.entries))
    {
      if name !in book.entries {
        return false;
      }
      var e := book.entries[name];
      var shared := SharedRecordName(reg);
      if HasPending(e) || shared.None? || e.address == "" || shared.value !in env.records {
        return true;
      }
      var read := Chain.ReadImplementation(c, e.address);
      if read.None? {
        return false;
      }
      var impl := env.records[shared.value].address;
      if Same(read.value, impl) {
        return true;
      }
      if shared.value !in book.entries || book.entries[shared.value].ActiveMetadata().None? {
        return false;
      }
      ok := book.SetPendingImplementationWithMetadata(name, impl, book.entries[shared.value].ActiveMetadata().value);
    }

    /** Appends the upgrade of one contract to a builder; `upgraded` says whether there was one. */
    method BuildUpgradeTxs(c: Chain.State, reg: Registration, name: string, builder: TxBuilder)
      returns (ok: bool, upgraded: bool)
      requires builder.Valid()
      modifies book, builder`transactions, builder`metadata
      ensures builder.Valid()
      ensures var u := UpgradeBuilt(Stores(old(book.entries), env.records), c, reg, name);
              && ok == !u.Thrown? && upgraded == u.Built? && book.entries == u.book
              && builder.Contents() == old(builder.Contents()) + if u.Built? then u.items else []
    {
      upgraded := false;
      ok := SetSharedPending(c, reg, name);
      if !ok || !HasPending(book.entries[name]) {
        return;
      }
      var e := book.entries[name];
      var admin := AdminFor(reg, e, book.entries);
      if admin.None? {
        return false, false;
      }
      upgraded := true;
      var impl := e.pending.value.address;
      if reg.proxyType == Some(Chain.Transparent) {
        builder.AddTx(Tx(admin.value, "0", Chain.UpgradeAndCall(e.address, impl), false),
                      Note(name, name + "_ProxyAdmin", "upgradeAndCall(address,address,bytes)", "single step"));
      } else {
        ghost var before := builder.Contents();
        builder.AddTx(Tx(admin.value, "0", Chain.Upgrade(e.address, impl), false),
                      Note(name, "GraphProxyAdmin", "upgrade(address,address)", "step 1/2"));
        builder.AddTx(Tx(admin.value, "0", Chain.AcceptProxy(impl, e.address), false),
                      Note(name, "GraphProxyAdmin", "acceptProxy(address,address)", "step 2/2"));
        assert builder.Contents() == before + UpgradeItems(name, Chain.Graph, admin.value, e.address, impl);
      }
    }

    method UpgradeImplementation(c: Chain.State, reg: Registration, name: string) returns (ok: bool, upgraded: bool)
      modifies book, files
      ensures var u := UpgradeBuilt(Stores(old(book.entries), env.records), c, reg, name);
              && ok == !u.Thrown? && upgraded == u.Built?
              && book.entries == u.book && files.dir == UpgradeSaved(old(files.dir), name, u)
    {
      var builder := files.CreateGovernanceTxBuilder(UpgradeSlot(name));
      ok, upgraded := BuildUpgradeTxs(c, reg, name, builder);
      if ok && upgraded {
        ghost var u := UpgradeBuilt(Stores(old(book.entries), env.records), c, reg, name);
        assert [] + u.items == u.items;
        files.SaveGovernanceTx(builder);
      }
    }
  }

  // ---------------------------------------------------------------- what the script leaves behind

  /** Upgrade and accept for a Graph proxy, one call for a transparent one, each to this admin. */
  predicate UpgradesTo(txs: seq<Tx>, transparent: bool, admin: string, proxy: string, impl: string) {
    && (forall tx <- txs :: tx.to == admin && tx.value == "0")
    && if transparent then |txs| == 1 && txs[0].data == Chain.UpgradeAndCall(proxy, impl)
       else |txs| == 2 && txs[0].data == Chain.Upgrade(proxy, impl) && txs[1].data == Chain.AcceptProxy(impl, proxy)
  }

  /**
   * When `upgradeImplementation` returns, its file exists exactly if the address book has a pending
   * implementation, and then its transactions upgrade this proxy to that implementation, through the
   * admin on record. No other pending file is touched.
   */
  lemma UpgradeFileIsCurrent(s: Stores, c: Chain.State, d: Dir, reg: Registration, name: string)
    ensures var u := UpgradeBuilt(s, c, reg, name);
            var d' := UpgradeSaved(d, name, u);
            var file := "upgrade-" + name + ".json";
            && d'.top - {file} == d.top - {file}
            && (u.Thrown? ==> file !in d'.top)
            && (!u.Thrown? ==>
                  && name in u.book && var e := u.book[name];
                  && (file in d'.top <==> e.pending.Some? && e.pending.value.address != "")
                  && (file in d'.top ==>
                        exists admin ::
                          && admin != "" && RecordedAdmin(reg, e, u.book, admin)
                          && UpgradesTo(d'.top[file].transactions, reg.proxyType == Some(Chain.Transparent), admin,
                                        e.address, e.pending.value.address)))
  {
    var u := UpgradeBuilt(s, c, reg, name);
    if u.Built? {
      var e := u.book[name];
      assert RecordedAdmin(reg, e, u.book, AdminFor(reg, e, u.book).value);
    }
  }

  /** What the file says of each transaction: the contract it is for, whom it is sent to, and what is called. */
  lemma UpgradeLabels(s: Stores, c: Chain.State, d: Dir, reg: Registration, name: string)
    requires UpgradeBuilt(s, c, reg, name).Built?
    ensures var file := "upgrade-" + name + ".json";
            var top := UpgradeSaved(d, name, UpgradeBuilt(s, c, reg, name)).top;
            && file in top && top[file].gatheredFrom.None? && top[file].metadata.Some?
            && var m := top[file].metadata.value;
               && |m| == |top[file].transactions|
               && (forall x <- m :: x.Described? && x.contractName == name)
               && if reg.proxyType == Some(Chain.Transparent) then
                    m[0].toLabel == name + "_ProxyAdmin" && m[0].signature == "upgradeAndCall(address,address,bytes)"
                  else
                    && |m| == 2 && m[0].toLabel == "GraphProxyAdmin" && m[1].toLabel == "GraphProxyAdmin"
                    && m[0].signature == "upgrade(address,address)" && m[1].signature == "acceptProxy(address,address)"
                    && m[0].notes == "step 1/2" && m[1].notes == "step 2/2"
  {
    var items := UpgradeBuilt(s, c, reg, name).items;
    assert forall k :: 0 <= k < |items| ==> Metadatas(items)[k] == items[k].metadata;
  }

  /** Nothing recorded as pending, and a shared implementation `base` that the proxy may have to follow. */
  predicate MayFollow(s: Stores, reg: Registration, name: string, base: string) {
    && name in s.book && (s.book[name].pending.Some? ==> s.book[name].pending.value.address == "")
    && s.book[name].address != "" && base != "" && (reg.sharedImplementation == Some(base + "_Implementation"))
    && base + "_Implementation" in s.records
  }

  /**
   * The script first follows a shared implementation: one that runs at another address becomes
   * pending with its metadata, or the script throws when there is no metadata to go with it.
   */
  lemma FollowsShared(s: Stores, c: Chain.State, reg: Registration, name: string, base: string)
    requires MayFollow(s, reg, name, base) && s.book[name].proxy.Some?
    ensures var shared := base + "_Implementation";
            var u := UpgradeBuilt(s, c, reg, name);
            var read := Chain.ReadImplementation(c, s.book[name].address);
            var known := shared in s.book && s.book[shared].ActiveMetadata().Some?;
            && (read.None? ==> u == Thrown(s.book))
            && (read.Some? && SameButCase(read.value, s.records[shared].address) ==> u == NotNeeded(s.book))
            && (read.Some? && !SameButCase(read.value, s.records[shared].address) ==>
                  if known
                  then u.book == s.book[name := s.book[name].(pending := Some(
                         Pending(s.records[shared].address, s.book[shared].ActiveMetadata().value)))]
                  else u == Thrown(s.book))
  {
    StripAppended(base);
    if Chain.ReadImplementation(c, s.book[name].address).Some? {
      SameIff(Chain.ReadImplementation(c, s.book[name].address).value, s.records[base + "_Implementation"].address);
    }
  }

  lemma StripAppended(base: string)
    ensures StripSuffix(base + "_Implementation") == base
  {
    var s := base + "_Implementation";
    assert s[|s| - |SUFFIX|..] == SUFFIX && s[..|s| - |SUFFIX|] == base;
  }

  /** Apart from that, nothing changes and it throws exactly for a missing entry or admin. */
  lemma NothingToFollow(s: Stores, c: Chain.State, reg: Registration, name: string)
    requires reg.sharedImplementation.None? || (name in s.book && s.book[name].pending.Some?
                                                && s.book[name].pending.value.address != "")
    ensures var u := UpgradeBuilt(s, c, reg, name);
            && u.book == s.book
            && (u.Thrown? <==>
                  || name !in s.book
                  || (&& s.book[name].pending.Some? && s.book[name].pending.value.address != ""
                      && forall admin :: RecordedAdmin(reg, s.book[name], s.book, admin) ==> admin == ""))
  {
    if name in s.book {
      var e := s.book[name];
      if AdminFor(reg, e, s.book).Some? {
        assert RecordedAdmin(reg, e, s.book, AdminFor(reg, e, s.book).value);
      }
    }
  }
}

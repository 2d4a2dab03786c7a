/** Desired-state configuration: check conditions on chain, emit only the transactions needed, converge. */
module Configuration {
  import opened Wrappers
  import opened Addresses

  /** `compare` is what the caller supplied, or strict equality. */
  datatype Condition<!T> =
    | Param(getter: string, setter: string, target: T, compare: (T, T) -> bool)
    | Role(roleGetter: string, account: string, grant: bool)

  datatype Call<T> =
    | Set(setter: string, value: T)
    | GrantRole(role: string, account: string)
    | RevokeRole(role: string, account: string)

  /** What a contract's functions refer to; a name that is missing makes the call revert. */
  datatype Interface = Interface(
    getters: map<string, string>,
    setters: map<string, string>,
    roleIds: map<string, string>)

  datatype Storage<T> = Storage(slots: map<string, T>, members: set<(string, string)>)

  function Execute<T>(i: Interface, x: Storage<T>, call: Call<T>): Storage<T> {
    match call
    case Set(setter, value) => if setter in i.setters then x.(slots := x.slots[i.setters[setter] := value]) else x
    case GrantRole(role, account) => x.(members := x.members + {(role, Lower(account))})
    case RevokeRole(role, account) => x.(members := x.members - {(role, Lower(account))})
  }

  function ExecuteAll<T>(i: Interface, x: Storage<T>, calls: seq<Call<T>>): Storage<T> {
    if calls == [] then x else Execute(i, ExecuteAll(i, x, calls[..|calls| - 1]), calls[|calls| - 1])
  }

  // ---------------------------------------------------------------- checking and emitting

  /** Whether a condition holds, or nothing when a read reverts. */
  function CheckCondition<T>(i: Interface, x: Storage<T>, c: Condition<T>): Option<bool> {
    match c
    case Role(getter, account, grant) =>
      if getter in i.roleIds then Some(((i.roleIds[getter], Lower(account)) in x.members) == grant) else None
    case Param(getter, _, target, compare) =>
      if getter in i.getters && i.getters[getter] in x.slots
      then Some(compare(x.slots[i.getters[getter]], target)) else None
  }

  /** Every condition can be read. */
  predicate Readable<T>(i: Interface, x: Storage<T>, conditions: seq<Condition<T>>) {
    forall k :: 0 <= k < |conditions| ==> CheckCondition(i, x, conditions[k]).Some?
  }

  predicate AllOk<T>(i: Interface, x: Storage<T>, conditions: seq<Condition<T>>) {
    forall k :: 0 <= k < |conditions| ==> CheckCondition(i, x, conditions[k]) == Some(true)
  }

  /** The conditions that need a transaction, in order: those that do not hold, or all of them in blind mode. */
  function Failing<T>(i: Interface, x: Storage<T>, conditions: seq<Condition<T>>, blind: bool): seq<Condition<T>> {
    if conditions == [] then []
    else
      var last := conditions[|conditions| - 1];
      Failing(i, x, conditions[..|conditions| - 1], blind)
      + if blind || CheckCondition(i, x, last) != Some(true) then [last] else []
  }

  /** The transaction for a condition; the role identifier is read from the contract in either mode. */
  function CallFor<T>(i: Interface, c: Condition<T>): Option<Call<T>> {
    match c
    case Role(getter, account, grant) =>
      if getter !in i.roleIds then None
      else Some(if grant then GrantRole(i.roleIds[getter], account) else RevokeRole(i.roleIds[getter], account))
    case Param(_, setter, target, _) => Some(Set(setter, target))
  }

  /** The transactions emitted before the first role whose identifier cannot be read. */
  function Emitted<T>(i: Interface, failing: seq<Condition<T>>): seq<Call<T>> {
    if failing == [] || CallFor(i, failing[0]).None? then []
    else [CallFor(i, failing[0]).value] + Emitted(i, failing[1..])
  }

  predicate Emittable<T>(i: Interface, failing: seq<Condition<T>>) {
    forall k :: 0 <= k < |failing| ==> CallFor(i, failing[k]).Some?
  }

  // ---------------------------------------------------------------- the command

  /** Where the transactions go: a builder shared with the caller, straight to the chain, or a bundle file. */
  datatype Destination = Shared | Direct | SavedBundle

  datatype Outcome = Threw | AlreadyOk | Changed(executedDirectly: bool)

  datatype Site<T> = Site(storage: Storage<T>, shared: seq<Call<T>>, bundle: Option<seq<Call<T>>>)

  function Applied<T>(i: Interface, s: Site<T>, conditions: seq<Condition<T>>, blind: bool,
                      to: Destination): (Site<T>, Outcome) {
    if !blind && !Readable(i, s.storage, conditions) then (s, Threw)
    else if !blind && AllOk(i, s.storage, conditions) then (s, AlreadyOk)
    else
      var failing := Failing(i, s.storage, conditions, blind);
      var calls := Emitted(i, failing);
      if to == Shared then
        (s.(shared := s.shared + calls), if Emittable(i, failing) then Changed(false) else Threw)
      else if !Emittable(i, failing) then (s.(bundle := None), Threw)
      else if to == Direct then
        (s.(storage := ExecuteAll(i, s.storage, calls), bundle := None), Changed(true))
      else (s.(bundle := Some(calls)), Changed(false))
  }

  class Configurator<T> {
    const interface: Interface
    var storage: Storage<T>
    /** The caller's builder. */
    var shared: seq<Call<T>>
    /** The pending file `configure-<contract>`. */
    var bundle: Option<seq<Call<T>>>

    constructor (interface: Interface, storage: Storage<T>)
      ensures this.interface == interface && this.storage == storage && shared == [] && bundle == None
    {
      this.interface, this.storage, shared, bundle := interface, storage, [], None;
    }

    ghost function Now(): Site<T>
      reads this
    {
      Site(storage, shared, bundle)
    }

    method CheckConditions(conditions: seq<Condition<T>>) returns (ok: bool, results: seq<bool>, allOk: bool)
      ensures ok == Readable(interface, storage, conditions)
      ensures ok ==> |results| == |conditions| && allOk == AllOk(interface, storage, conditions)
                     && forall k :: 0 <= k < |results| ==>
                          CheckCondition(interface, storage, conditions[k]) == Some(results[k])
    {
      ok, results, allOk := true, [], true;
      for k := 0 to |conditions|
        invariant ok && |results| == k
        invariant forall j :: 0 <= j < k ==> CheckCondition(interface, storage, conditions[j]) == Some(results[j])
        invariant allOk <==> forall j :: 0 <= j < k ==> results[j]
      {
        var r := CheckCondition(interface, storage, conditions[k]);
        if r.None? {
          return false, [], false;
        }
        results := results + [r.value];
        allOk := allOk && r.value;
      }
    }

    method SelectFailing(conditions: seq<Condition<T>>, results: seq<bool>, ghost blind: bool)
      returns (failing: seq<Condition<T>>)
      requires |results| == |conditions|
      requires forall k :: 0 <= k < |results| ==>
                 (results[k] <==> !blind && CheckCondition(interface, storage, conditions[k]) == Some(true))
      ensures failing == Failing(interface, storage, conditions, blind)
    {
      failing := [];
      for k := 0 to |conditions|
        invariant failing == Failing(interface, storage, conditions[..k], blind)
      {
        assert conditions[..k + 1][..k] == conditions[..k];
        if !results[k] {
          failing := failing + [conditions[k]];
        }
      }
      assert conditions[..|conditions|] == conditions;
    }

    /** Appends one transaction per failing condition, until a role identifier cannot be read. */
    method Emit(failing: seq<Condition<T>>) returns (ok: bool, calls: seq<Call<T>>)
      ensures ok == Emittable(interface, failing) && calls == Emitted(interface, failing)
    {
      ok, calls := true, [];
      for k := 0 to |failing|
        invariant ok && forall j :: 0 <= j < k ==> CallFor(interface, failing[j]).Some?
        invariant Emitted(interface, failing) == calls + Emitted(interface, failing[k..])
      {
        var call := CallFor(interface, failing[k]);
        if call.None? {
          return false, calls;
        }
        assert failing[k..][1..] == failing[k + 1..];
        calls := calls + [call.value];
      }
    }

    method ApplyConfiguration(conditions: seq<Condition<T>>, assumeUndone: bool, to: Destination) returns (r: Outcome)
      modifies this
      ensures (Now(), r) == Applied(interface, old(Now()), conditions, assumeUndone, to)
    {
      var results := seq(|conditions|, _ => false);
      if !assumeUndone {
        var ok, allOk;
        ok, results, allOk := CheckConditions(conditions);
        if !ok {
          return Threw;
        }
        if allOk {
          return AlreadyOk;
        }
      }
      var failing := SelectFailing(conditions, results, assumeUndone);
      if to != Shared {
        bundle := None;
      }
      var ok, calls := Emit(failing);
      if to == Shared {
        shared := shared + calls;
        r := if ok then Changed(false) else Threw;
      } else if !ok {
        r := Threw;
      } else if to == Direct {
        SendAll(calls);
        r := Changed(true);
      } else {
        bundle := Some(calls);
        r := Changed(false);
      }
    }

    method SendAll(calls: seq<Call<T>>)
      modifies this`storage
      ensures storage == ExecuteAll(interface, old(storage), calls)
    {
      for k := 0 to |calls|
        invariant storage == ExecuteAll(interface, old(storage), calls[..k])
      {
        assert calls[..k + 1][..k] == calls[..k];
        storage := Execute(interface, storage, calls[k]);
      }
      assert calls[..|calls|] == calls;
    }
  }

  // ---------------------------------------------------------------- cells

  /** What a condition is about, and what it asks for. */
  datatype Cell = Slot(name: string) | Membership(role: string, account: string)

  datatype Value<T> = Setting(v: T) | Held(held: bool)

  function View<T>(x: Storage<T>, cell: Cell): Option<Value<T>> {
    match cell
    case Slot(n) => if n in x.slots then Some(Setting(x.slots[n])) else None
    case Membership(role, account) => Some(Held((role, account) in x.members))
  }

  /** Getter and setter of one parameter, or a known role. */
  predicate Wired<T>(i: Interface, c: Condition<T>) {
    match c
    case Role(getter, _, _) => getter in i.roleIds
    case Param(getter, setter, _, _) =>
      getter in i.getters && setter in i.setters && i.getters[getter] == i.setters[setter]
  }

  function CellOf<T>(i: Interface, c: Condition<T>): Cell
    requires Wired(i, c)
  {
    match c
    case Role(getter, account, _) => Membership(i.roleIds[getter], Lower(account))
    case Param(getter, _, _, _) => Slot(i.getters[getter])
  }

  function Wanted<T>(c: Condition<T>): Value<T> {
    match c
    case Role(_, _, grant) => Held(grant)
    case Param(_, _, target, _) => Setting(target)
  }

  /** The condition is content with this value. */
  predicate Accepts<T>(c: Condition<T>, v: Value<T>) {
    match c
    case Role(_, _, grant) => v == Held(grant)
    case Param(_, _, target, compare) => v.Setting? && compare(v.v, target)
  }

  predicate AllWired<T>(i: Interface, x: Storage<T>, conditions: seq<Condition<T>>) {
    forall k :: 0 <= k < |conditions| ==> Wired(i, conditions[k]) && View(x, CellOf(i, conditions[k])).Some?
  }

  /** Conditions about the same parameter or the same membership ask for compatible values. */
  predicate Compatible<T>(i: Interface, conditions: seq<Condition<T>>)
    requires forall k :: 0 <= k < |conditions| ==> Wired(i, conditions[k])
  {
    forall j, k :: 0 <= j < |conditions| && 0 <= k < |conditions|
                   && CellOf(i, conditions[j]) == CellOf(i, conditions[k])
      ==> Accepts(conditions[k], Wanted(conditions[j]))
  }

  lemma CheckIsAcceptance<T>(i: Interface, x: Storage<T>, c: Condition<T>)
    requires Wired(i, c) && View(x, CellOf(i, c)).Some?
    ensures CheckCondition(i, x, c) == Some(Accepts(c, View(x, CellOf(i, c)).value))
  {
  }

  lemma CallWritesItsCell<T>(i: Interface, x: Storage<T>, c: Condition<T>, cell: Cell)
    requires Wired(i, c)
    ensures View(Execute(i, x, CallFor(i, c).value), cell)
         == if cell == CellOf(i, c) then Some(Wanted(c)) else View(x, cell)
  {
  }

  // ---------------------------------------------------------------- what a run leaves in a cell

  predicate Needed<T>(i: Interface, x: Storage<T>, c: Condition<T>, blind: bool) {
    blind || CheckCondition(i, x, c) != Some(true)
  }

  /** The storage after the emitted transactions were executed. */
  function Configured<T>(i: Interface, x: Storage<T>, conditions: seq<Condition<T>>, blind: bool): Storage<T> {
    ExecuteAll(i, x, Emitted(i, Failing(i, x, conditions, blind)))
  }

  lemma {:induction false} EmittedSnoc<T>(i: Interface, failing: seq<Condition<T>>, last: Condition<T>)
    requires Emittable(i, failing) && CallFor(i, last).Some?
    ensures Emitted(i, failing + [last]) == Emitted(i, failing) + [CallFor(i, last).value]
  {
    if failing == [] {
      assert Emitted(i, (failing + [last])[1..]) == [];
    } else {
      EmittedSnoc(i, failing[1..], last);
      assert (failing + [last])[1..] == failing[1..] + [last];
    }
  }

  lemma {:induction false} FailingEmittable<T>(i: Interface, x: Storage<T>, conditions: seq<Condition<T>>, blind: bool)
    requires forall k :: 0 <= k < |conditions| ==> Wired(i, conditions[k])
    ensures Emittable(i, Failing(i, x, conditions, blind))
  {
    if conditions != [] {
      FailingEmittable(i, x, conditions[..|conditions| - 1], blind);
    }
  }

  /** One more condition: its cell gets what it wants if it needs a transaction; nothing else changes. */
  lemma ConfiguredSnoc<T>(i: Interface, x: Storage<T>, conditions: seq<Condition<T>>, blind: bool, cell: Cell)
    requires conditions != [] && forall k :: 0 <= k < |conditions| ==> Wired(i, conditions[k])
    ensures var init, last := conditions[..|conditions| - 1], conditions[|conditions| - 1];
            View(Configured(i, x, conditions, blind), cell)
            == if Needed(i, x, last, blind) && cell == CellOf(i, last) then Some(Wanted(last))
               else View(Configured(i, x, init, blind), cell)
  {
    var init, last := conditions[..|conditions| - 1], conditions[|conditions| - 1];
    var failing := Failing(i, x, init, blind);
    FailingEmittable(i, x, init, blind);
    if Needed(i, x, last, blind) {
      EmittedSnoc(i, failing, last);
      var calls := Emitted(i, failing);
      assert (calls + [CallFor(i, last).value])[..|calls|] == calls;
      CallWritesItsCell(i, ExecuteAll(i, x, calls), last, cell);
    } else {
      assert failing + [] == failing;
    }
  }

  /** The conditions about this cell, none of which needed a transaction. */
  ghost predicate NoneNeeded<T>(i: Interface, x: Storage<T>, conditions: seq<Condition<T>>, blind: bool, cell: Cell)
    requires forall k :: 0 <= k < |conditions| ==> Wired(i, conditions[k])
  {
    forall k :: 0 <= k < |conditions| && CellOf(i, conditions[k]) == cell ==> !Needed(i, x, conditions[k], blind)
  }

  ghost predicate WantedBySome<T>(i: Interface, conditions: seq<Condition<T>>, cell: Cell, v: Option<Value<T>>)
    requires forall k :: 0 <= k < |conditions| ==> Wired(i, conditions[k])
  {
    exists k :: 0 <= k < |conditions| && CellOf(i, conditions[k]) == cell && v == Some(Wanted(conditions[k]))
  }

  /** The last write to a cell, or what it held before. */
  ghost function Settled<T>(i: Interface, x: Storage<T>, conditions: seq<Condition<T>>, blind: bool,
                            cell: Cell): Option<Value<T>>
    requires forall k :: 0 <= k < |conditions| ==> Wired(i, conditions[k])
  {
    if conditions == [] then View(x, cell)
    else
      var last := conditions[|conditions| - 1];
      if Needed(i, x, last, blind) && cell == CellOf(i, last) then Some(Wanted(last))
      else Settled(i, x, conditions[..|conditions| - 1], blind, cell)
  }

  lemma {:induction false} ConfiguredSettles<T>(i: Interface, x: Storage<T>, conditions: seq<Condition<T>>,
                                        blind: bool, cell: Cell)
    requires forall k :: 0 <= k < |conditions| ==> Wired(i, conditions[k])
    ensures View(Configured(i, x, conditions, blind), cell) == Settled(i, x, conditions, blind, cell)
  {
    if conditions != [] {
      ConfiguredSettles(i, x, conditions[..|conditions| - 1], blind, cell);
      ConfiguredSnoc(i, x, conditions, blind, cell);
    }
  }

  lemma {:induction false} SettledFrom<T>(i: Interface, x: Storage<T>, conditions: seq<Condition<T>>,
                                        blind: bool, cell: Cell)
    requires forall k :: 0 <= k < |conditions| ==> Wired(i, conditions[k])
    ensures var v := Settled(i, x, conditions, blind, cell);
            (v == View(x, cell) && NoneNeeded(i, x, conditions, blind, cell)) || WantedBySome(i, conditions, cell, v)
  {
    if conditions != [] {
      var n := |conditions| - 1;
      var init := conditions[..n];
      SettledFrom(i, x, init, blind, cell);
      var v := Settled(i, x, init, blind, cell);
      if Needed(i, x, conditions[n], blind) && cell == CellOf(i, conditions[n]) {
        assert WantedBySome(i, conditions, cell, Some(Wanted(conditions[n])));
      } else if WantedBySome(i, init, cell, v) {
        var k :| 0 <= k < n && CellOf(i, init[k]) == cell && v == Some(Wanted(init[k]));
        assert conditions[k] == init[k];
      } else {
        NoneNeededSnoc(i, x, conditions, blind, cell);
      }
    }
  }

  /**
   * A cell ends as some condition wants it, or untouched because every condition about it already held
   * in a guarded run.
   */
  lemma CellSettles<T>(i: Interface, x: Storage<T>, conditions: seq<Condition<T>>, blind: bool, cell: Cell)
    requires forall k :: 0 <= k < |conditions| ==> Wired(i, conditions[k])
    ensures var v := View(Configured(i, x, conditions, blind), cell);
            (v == View(x, cell) && NoneNeeded(i, x, conditions, blind, cell)) || WantedBySome(i, conditions, cell, v)
  {
    ConfiguredSettles(i, x, conditions, blind, cell);
    SettledFrom(i, x, conditions, blind, cell);
  }

  lemma NoneNeededSnoc<T>(i: Interface, x: Storage<T>, conditions: seq<Condition<T>>, blind: bool, cell: Cell)
    requires conditions != [] && forall k :: 0 <= k < |conditions| ==> Wired(i, conditions[k])
    requires NoneNeeded(i, x, conditions[..|conditions| - 1], blind, cell)
    requires var last := conditions[|conditions| - 1]; !(Needed(i, x, last, blind) && cell == CellOf(i, last))
    ensures NoneNeeded(i, x, conditions, blind, cell)
  {
    forall k | 0 <= k < |conditions| && CellOf(i, conditions[k]) == cell ensures !Needed(i, x, conditions[k], blind) {
      assert k < |conditions| - 1 ==> conditions[..|conditions| - 1][k] == conditions[k];
    }
  }

  // ---------------------------------------------------------------- convergence

  /**
   * Compatible conditions converge in one run, guarded or blind: afterwards every condition holds,
   * and a second run changes nothing and emits nothing.
   */
  lemma ConfigurationConverges<T>(i: Interface, x: Storage<T>, conditions: seq<Condition<T>>, blind: bool,
                                  to: Destination, shared: seq<Call<T>>)
    requires AllWired(i, x, conditions) && Compatible(i, conditions)
    ensures var y := Configured(i, x, conditions, blind);
            && AllWired(i, y, conditions) && AllOk(i, y, conditions)
            && Applied(i, Site(y, shared, None), conditions, false, to) == (Site(y, shared, None), AlreadyOk)
  {
    var y := Configured(i, x, conditions, blind);
    forall k | 0 <= k < |conditions|
      ensures View(y, CellOf(i, conditions[k])).Some? && CheckCondition(i, y, conditions[k]) == Some(true)
    {
      var cell := CellOf(i, conditions[k]);
      CellSettles(i, x, conditions, blind, cell);
      CheckIsAcceptance(i, x, conditions[k]);
      CheckIsAcceptance(i, y, conditions[k]);
    }
  }

  lemma AllOkSnoc<T>(i: Interface, x: Storage<T>, init: seq<Condition<T>>, last: Condition<T>)
    ensures AllOk(i, x, init + [last]) <==> AllOk(i, x, init) && CheckCondition(i, x, last) == Some(true)
  {
    if AllOk(i, x, init + [last]) {
      forall k | 0 <= k < |init| ensures CheckCondition(i, x, init[k]) == Some(true) {
        assert (init + [last])[k] == init[k];
      }
      assert (init + [last])[|init|] == last;
    }
  }

  lemma {:induction false} NothingFailing<T>(i: Interface, x: Storage<T>, conditions: seq<Condition<T>>)
    ensures AllOk(i, x, conditions) <==> Failing(i, x, conditions, false) == []
  {
    if conditions != [] {
      var n := |conditions| - 1;
      NothingFailing(i, x, conditions[..n]);
      AllOkSnoc(i, x, conditions[..n], conditions[n]);
      assert conditions[..n] + [conditions[n]] == conditions;
    }
  }

  /**
   * Whichever way the transactions go, executing what one run emits configures the contract: at
   * once, from the bundle it saved, or from the builder it was given.
   */
  lemma RunConfigures<T>(i: Interface, s: Site<T>, conditions: seq<Condition<T>>, blind: bool, to: Destination)
    requires AllWired(i, s.storage, conditions)
    ensures var (s', r) := Applied(i, s, conditions, blind, to);
            var y := Configured(i, s.storage, conditions, blind);
            && r != Threw
            && (r == AlreadyOk <==> !blind && AllOk(i, s.storage, conditions))
            && (r == AlreadyOk ==> s' == s && y == s.storage)
            && (r != AlreadyOk ==>
                  match to
                  case Direct => r == Changed(true) && s'.storage == y && s'.shared == s.shared && s'.bundle.None?
                  case SavedBundle => r == Changed(false) && s'.storage == s.storage && s'.bundle.Some?
                                      && s'.shared == s.shared && ExecuteAll(i, s.storage, s'.bundle.value) == y
                  case Shared => r == Changed(false) && s'.storage == s.storage && s'.bundle == s.bundle
                                 && s.shared <= s'.shared
                                 && ExecuteAll(i, s.storage, s'.shared[|s.shared|..]) == y)
  {
    forall k | 0 <= k < |conditions| ensures CheckCondition(i, s.storage, conditions[k]).Some? {
      CheckIsAcceptance(i, s.storage, conditions[k]);
    }
    FailingEmittable(i, s.storage, conditions, blind);
    NothingFailing(i, s.storage, conditions);
  }

  /** The condition is unmet: its cell does not hold a value it is content with. */
  predicate Unmet<T>(i: Interface, x: Storage<T>, c: Condition<T>)
    requires Wired(i, c)
  {
    !(View(x, CellOf(i, c)).Some? && Accepts(c, View(x, CellOf(i, c)).value))
  }

  /** The transaction a condition asks for, spelled out. */
  function Asks<T>(i: Interface, c: Condition<T>): Call<T>
    requires Wired(i, c)
  {
    match c
    case Param(_, setter, target, _) => Set(setter, target)
    case Role(getter, account, grant) =>
      if grant then GrantRole(i.roleIds[getter], account) else RevokeRole(i.roleIds[getter], account)
  }

  /** The unmet conditions, in order. */
  ghost function UnmetOnes<T>(i: Interface, x: Storage<T>, conditions: seq<Condition<T>>): seq<Condition<T>>
    requires forall k :: 0 <= k < |conditions| ==> Wired(i, conditions[k])
  {
    if conditions == [] then []
    else
      var n := |conditions| - 1;
      UnmetOnes(i, x, conditions[..n]) + if Unmet(i, x, conditions[n]) then [conditions[n]] else []
  }

  lemma {:induction false} FailingIsUnmet<T>(i: Interface, x: Storage<T>, conditions: seq<Condition<T>>)
    requires AllWired(i, x, conditions)
    ensures Failing(i, x, conditions, false) == UnmetOnes(i, x, conditions)
    ensures Failing(i, x, conditions, true) == conditions
  {
    if conditions != [] {
      var n := |conditions| - 1;
      FailingIsUnmet(i, x, conditions[..n]);
      CheckIsAcceptance(i, x, conditions[n]);
      assert conditions[..n] + [conditions[n]] == conditions;
    }
  }

  lemma {:induction false} EmittedAsked<T>(i: Interface, failing: seq<Condition<T>>)
    requires forall k :: 0 <= k < |failing| ==> Wired(i, failing[k])
    ensures |Emitted(i, failing)| == |failing|
    ensures forall k :: 0 <= k < |failing| ==> Emitted(i, failing)[k] == Asks(i, failing[k])
  {
    if failing != [] {
      EmittedAsked(i, failing[1..]);
    }
  }

  /**
   * What a run saves: one transaction per condition that is unmet, or per condition in blind mode, in
   * the order of the conditions and each for its own condition.
   */
  lemma OneTransactionEach<T>(i: Interface, s: Site<T>, conditions: seq<Condition<T>>, blind: bool)
    requires AllWired(i, s.storage, conditions)
    ensures var todo := if blind then conditions else UnmetOnes(i, s.storage, conditions);
            var (s', r) := Applied(i, s, conditions, blind, SavedBundle);
            && (r == AlreadyOk <==> !blind && todo == [])
            && (r != AlreadyOk ==>
                  && r == Changed(false) && s'.bundle.Some? && |s'.bundle.value| == |todo|
                  && forall k :: 0 <= k < |todo| ==>
                       Wired(i, todo[k]) && s'.bundle.value[k] == Asks(i, todo[k]))
  {
    FailingIsUnmet(i, s.storage, conditions);
    RunConfigures(i, s, conditions, blind, SavedBundle);
    NothingFailing(i, s.storage, conditions);
    var todo := if blind then conditions else UnmetOnes(i, s.storage, conditions);
    UnmetWired(i, s.storage, conditions);
    EmittedAsked(i, todo);
  }

  lemma {:induction false} UnmetWired<T>(i: Interface, x: Storage<T>, conditions: seq<Condition<T>>)
    requires forall k :: 0 <= k < |conditions| ==> Wired(i, conditions[k])
    ensures forall k :: 0 <= k < |UnmetOnes(i, x, conditions)| ==> Wired(i, UnmetOnes(i, x, conditions)[k])
  {
    if conditions != [] {
      UnmetWired(i, x, conditions[..|conditions| - 1]);
    }
  }

  /** The default comparison. */
  ghost predicate Strict<T(!new)>(c: Condition<T>) {
    c.Param? ==> forall a, b :: c.compare(a, b) <==> a == b
  }

  ghost predicate AllStrict<T(!new)>(conditions: seq<Condition<T>>) {
    forall k :: 0 <= k < |conditions| ==> Strict(conditions[k])
  }

  /**
   * For conditions compared by equality the second run is silent if and only if no two conditions
   * ask for different values of the same parameter or membership. With such a conflict every run
   * emits transactions again.
   */
  lemma SecondRunSilentIffCompatible<T(!new)>(i: Interface, x: Storage<T>, conditions: seq<Condition<T>>, blind: bool,
                                              to: Destination, shared: seq<Call<T>>)
    requires AllWired(i, x, conditions) && AllStrict(conditions)
    ensures var y := Configured(i, x, conditions, blind);
            Applied(i, Site(y, shared, None), conditions, false, to).1 == AlreadyOk <==> Compatible(i, conditions)
  {
    var y := Configured(i, x, conditions, blind);
    if Compatible(i, conditions) {
      ConfigurationConverges(i, x, conditions, blind, to, shared);
    } else if AllOk(i, y, conditions) {
      HoldingTogether(i, y, conditions);
    }
  }

  /** Conditions that hold at once, each exactly, do not conflict. */
  lemma HoldingTogether<T(!new)>(i: Interface, y: Storage<T>, conditions: seq<Condition<T>>)
    requires AllStrict(conditions) && AllOk(i, y, conditions)
    requires forall k :: 0 <= k < |conditions| ==> Wired(i, conditions[k])
    ensures Compatible(i, conditions)
  {
    forall j, k | 0 <= j < |conditions| && 0 <= k < |conditions|
                  && CellOf(i, conditions[j]) == CellOf(i, conditions[k])
      ensures Accepts(conditions[k], Wanted(conditions[j]))
    {
      HoldsExactly(i, y, conditions[j]);
      HoldsExactly(i, y, conditions[k]);
    }
  }

  lemma HoldsExactly<T(!new)>(i: Interface, x: Storage<T>, c: Condition<T>)
    requires Wired(i, c) && Strict(c) && CheckCondition(i, x, c) == Some(true)
    ensures View(x, CellOf(i, c)) == Some(Wanted(c))
    ensures forall v :: Accepts(c, v) <==> v == Wanted(c)
  {
  }

  lemma ViewDetermines<T>(x: Storage<T>, y: Storage<T>)
    requires forall cell :: View(x, cell) == View(y, cell)
    ensures x == y
  {
    forall n ensures n in x.slots <==> n in y.slots
      ensures n in x.slots ==> x.slots[n] == y.slots[n]
    {
      assert View(x, Slot(n)) == View(y, Slot(n));
    }
    forall m: (string, string) ensures m in x.members <==> m in y.members {
      assert View(x, Membership(m.0, m.1)) == View(y, Membership(m.0, m.1));
    }
  }

  /** The blind batch refines the guarded one: compatible conditions compared by equality end in the same storage. */
  lemma BlindRefinesGuarded<T(!new)>(i: Interface, x: Storage<T>, conditions: seq<Condition<T>>)
    requires AllWired(i, x, conditions) && AllStrict(conditions) && Compatible(i, conditions)
    ensures Configured(i, x, conditions, true) == Configured(i, x, conditions, false)
  {
    var b, g := Configured(i, x, conditions, true), Configured(i, x, conditions, false);
    ConfigurationConverges(i, x, conditions, true, Direct, []);
    ConfigurationConverges(i, x, conditions, false, Direct, []);
    forall cell ensures View(b, cell) == View(g, cell) {
      CellSettles(i, x, conditions, true, cell);
      CellSettles(i, x, conditions, false, cell);
      if k :| 0 <= k < |conditions| && CellOf(i, conditions[k]) == cell {
        HoldsExactly(i, b, conditions[k]);
        HoldsExactly(i, g, conditions[k]);
      }
    }
    ViewDetermines(b, g);
  }

  /** Every parameter and membership is named once. */
  predicate DistinctCells<T>(i: Interface, conditions: seq<Condition<T>>)
    requires forall k :: 0 <= k < |conditions| ==> Wired(i, conditions[k])
  {
    forall j, k :: 0 <= j < k < |conditions| ==> CellOf(i, conditions[j]) != CellOf(i, conditions[k])
  }

  /**
   * With a caller's own comparison the two modes agree exactly when every condition that already
   * holds holds by equality: otherwise the blind batch rewrites a value the guarded one accepts.
   */
  lemma ModesAgreeIff<T>(i: Interface, x: Storage<T>, conditions: seq<Condition<T>>)
    requires AllWired(i, x, conditions) && DistinctCells(i, conditions)
    ensures Configured(i, x, conditions, true) == Configured(i, x, conditions, false)
       <==> forall k :: 0 <= k < |conditions| && CheckCondition(i, x, conditions[k]) == Some(true)
              ==> View(x, CellOf(i, conditions[k])) == Some(Wanted(conditions[k]))
  {
    var b, g := Configured(i, x, conditions, true), Configured(i, x, conditions, false);
    forall k | 0 <= k < |conditions|
      ensures View(b, CellOf(i, conditions[k])) == Some(Wanted(conditions[k]))
      ensures View(g, CellOf(i, conditions[k]))
           == if CheckCondition(i, x, conditions[k]) == Some(true) then View(x, CellOf(i, conditions[k]))
              else Some(Wanted(conditions[k]))
    {
      OwnCell(i, x, conditions, true, k);
      OwnCell(i, x, conditions, false, k);
    }
    if forall k :: 0 <= k < |conditions| && CheckCondition(i, x, conditions[k]) == Some(true)
         ==> View(x, CellOf(i, conditions[k])) == Some(Wanted(conditions[k])) {
      forall cell ensures View(b, cell) == View(g, cell) {
        CellSettles(i, x, conditions, true, cell);
        CellSettles(i, x, conditions, false, cell);
      }
      ViewDetermines(b, g);
    }
  }

  /** A cell that no condition names is not written. */
  lemma {:induction false} UnnamedCell<T>(i: Interface, x: Storage<T>, conditions: seq<Condition<T>>, blind: bool,
                                          cell: Cell)
    requires forall j :: 0 <= j < |conditions| ==> Wired(i, conditions[j]) && CellOf(i, conditions[j]) != cell
    ensures Settled(i, x, conditions, blind, cell) == View(x, cell)
  {
    if conditions != [] {
      UnnamedCell(i, x, conditions[..|conditions| - 1], blind, cell);
    }
  }

  lemma {:induction false} OwnSettled<T>(i: Interface, x: Storage<T>, conditions: seq<Condition<T>>, blind: bool,
                                         k: nat)
    requires (forall j :: 0 <= j < |conditions| ==> Wired(i, conditions[j])) && DistinctCells(i, conditions)
    requires k < |conditions|
    ensures Settled(i, x, conditions, blind, CellOf(i, conditions[k]))
         == if Needed(i, x, conditions[k], blind) then Some(Wanted(conditions[k]))
            else View(x, CellOf(i, conditions[k]))
  {
    var init := conditions[..|conditions| - 1];
    if k < |init| {
      OwnSettled(i, x, init, blind, k);
    } else {
      UnnamedCell(i, x, init, blind, CellOf(i, conditions[k]));
    }
  }

  lemma OwnCell<T>(i: Interface, x: Storage<T>, conditions: seq<Condition<T>>, blind: bool, k: nat)
    requires (forall j :: 0 <= j < |conditions| ==> Wired(i, conditions[j])) && DistinctCells(i, conditions)
    requires k < |conditions|
    ensures View(Configured(i, x, conditions, blind), CellOf(i, conditions[k]))
         == if Needed(i, x, conditions[k], blind) then Some(Wanted(conditions[k]))
            else View(x, CellOf(i, conditions[k]))
  {
    ConfiguredSettles(i, x, conditions, blind, CellOf(i, conditions[k]));
    OwnSettled(i, x, conditions, blind, k);
  }
}

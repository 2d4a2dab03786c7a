/** The token summary: wallets added by asynchronous calls whose two phases interleave. */
module Summary {
  import opened Wrappers
  import opened Vesting

  datatype TokenData = TokenData(address: string, tokenAmount: nat)

  datatype Totals = Totals(
    managed: nat,
    released: nat,
    available: nat,
    free: nat,
    used: nat,
    count: nat,
    contractsReleased: seq<TokenData>,
    contractsInProtocol: seq<TokenData>)

  const NOTHING := Totals(0, 0, 0, 0, 0, 0, [], [])

  datatype Amounts = Amounts(available: nat, free: nat)

  /** What one wallet adds at a given time, and the used amount its contract will report if it is asked. */
  datatype Share = Share(id: string, managed: nat, released: nat, amounts: Option<Amounts>, used: Option<nat>)

  /** Absent when the vesting arithmetic throws. */
  function AmountsOf(w: Wallet, timestamp: int): Option<Amounts> {
    match GetAvailableAmount(w, timestamp)
    case Err => None
    case Ok(available) =>
      match GetFreeAmount(w, timestamp)
      case Err => None
      case Ok(free) => Some(Amounts(available, free))
  }

  function ShareOf(w: Wallet, timestamp: int, used: Option<nat>): Share {
    Share(w.id, w.managedAmount, w.tokensReleased, AmountsOf(w, timestamp), used)
  }

  function Shown(id: string, amount: nat): seq<TokenData> {
    if amount > 0 then [TokenData(id, amount)] else []
  }

  /** The part of `addWallet` before its first await; nothing changes when the vesting arithmetic throws. */
  function Added(s: Totals, x: Share): Option<Totals> {
    match x.amounts
    case None => None
    case Some(a) =>
      Some(s.(managed := s.managed + x.managed,
              available := s.available + a.available,
              free := s.free + a.free,
              released := s.released + x.released,
              count := s.count + 1,
              contractsReleased := s.contractsReleased + Shown(x.id, x.released)))
  }

  /** The part after the contract answered. */
  function Answered(s: Totals, id: string, usedAmount: nat): Totals {
    s.(used := s.used + usedAmount, contractsInProtocol := s.contractsInProtocol + Shown(id, usedAmount))
  }

  class TokenSummary {
    var totalManaged: nat
    var totalReleased: nat
    var totalAvailable: nat
    var totalFree: nat
    var totalUsed: nat
    var totalCount: nat
    var contractsReleased: seq<TokenData>
    var contractsInProtocol: seq<TokenData>
    const timestamp: int

    constructor (timestamp: int)
      ensures Now() == NOTHING && this.timestamp == timestamp
    {
      this.timestamp := timestamp;
      totalManaged, totalReleased, totalAvailable, totalFree, totalUsed, totalCount := 0, 0, 0, 0, 0, 0;
      contractsReleased, contractsInProtocol := [], [];
    }

    ghost function Now(): Totals
      reads this
    {
      Totals(totalManaged, totalReleased, totalAvailable, totalFree, totalUsed, totalCount,
             contractsReleased, contractsInProtocol)
    }

    method AddWallet(w: Wallet) returns (ok: bool)
      modifies this
      ensures var r := Added(old(Now()), ShareOf(w, timestamp, None)); ok == r.Some? && Now() == r.GetOr(old(Now()))
    {
      var available := GetAvailableAmount(w, timestamp);
      if available.Err? {
        return false;
      }
      var free := GetFreeAmount(w, timestamp);
      if free.Err? {
        return false;
      }
      totalManaged := totalManaged + w.managedAmount;
      totalAvailable := totalAvailable + available.value;
      totalFree := totalFree + free.value;
      totalReleased := totalReleased + w.tokensReleased;
      totalCount := totalCount + 1;
      if w.tokensReleased > 0 {
        contractsReleased := contractsReleased + [TokenData(w.id, w.tokensReleased)];
      }
      ok := true;
    }

    method ContractAnswered(id: string, usedAmount: nat)
      modifies this
      ensures Now() == Answered(old(Now()), id, usedAmount)
    {
      if usedAmount > 0 {
        totalUsed := totalUsed + usedAmount;
        contractsInProtocol := contractsInProtocol + [TokenData(id, usedAmount)];
      }
    }
  }

  // ---------------------------------------------------------------- schedules

  /** A call made, or its contract's answer arriving; `k` is the position of the wallet in the list. */
  datatype Event = Call(k: nat) | Answer(k: nat)

  /** The calls that got through their first phase, and those whose contract has answered. */
  datatype Progress = Progress(totals: Totals, called: set<nat>, answered: set<nat>)

  const START := Progress(NOTHING, {}, {})

  /** Each call happens once; an answer arrives once, for a call that was made with a contract and did not throw. */
  predicate Enabled(shares: seq<Share>, p: Progress, tried: set<nat>, e: Event) {
    match e
    case Call(k) => k < |shares| && k !in tried
    case Answer(k) => k < |shares| && k in p.called && k !in p.answered && shares[k].used.Some?
  }

  function Step(shares: seq<Share>, p: Progress, e: Event): Progress
    requires e.k < |shares| && (e.Answer? ==> shares[e.k].used.Some?)
  {
    match e
    case Call(k) =>
      (match Added(p.totals, shares[k])
       case None => p
       case Some(totals) => p.(totals := totals, called := p.called + {k}))
    case Answer(k) =>
      p.(totals := Answered(p.totals, shares[k].id, shares[k].used.value), answered := p.answered + {k})
  }

  function Tried(events: seq<Event>): set<nat> {
    set e | e in events && e.Call? :: e.k
  }

  ghost predicate Possible(shares: seq<Share>, events: seq<Event>)
    decreases |events|, 0
  {
    events == [] ||
    (Possible(shares, events[..|events| - 1])
     && Enabled(shares, After(shares, events[..|events| - 1]), Tried(events[..|events| - 1]), events[|events| - 1]))
  }

  ghost function After(shares: seq<Share>, events: seq<Event>): Progress
    requires Possible(shares, events)
    decreases |events|, 1
  {
    if events == [] then START
    else Step(shares, After(shares, events[..|events| - 1]), events[|events| - 1])
  }

  // ---------------------------------------------------------------- plain sums

  /** The totals without the two lists. */
  datatype Sums = Sums(
    managed: nat,
    released: nat,
    available: nat,
    free: nat,
    used: nat,
    count: nat)

  const ZERO := Sums(0, 0, 0, 0, 0, 0)

  function Plus(a: Sums, b: Sums): Sums {
    Sums(a.managed + b.managed, a.released + b.released, a.available + b.available, a.free + b.free, a.used + b.used,
         a.count + b.count)
  }

  function Flat(t: Totals): Sums {
    Sums(t.managed, t.released, t.available, t.free, t.used, t.count)
  }

  /** The plain sum over the first `n` wallets, of those in the set, in list order. */
  ghost function SumOver(n: nat, s: set<nat>, f: nat -> Sums): Sums {
    if n == 0 then ZERO
    else Plus(if n - 1 in s then f(n - 1) else ZERO, SumOver(n - 1, s, f))
  }

  lemma PlusSwap(a: Sums, b: Sums, c: Sums)
    ensures Plus(a, Plus(b, c)) == Plus(b, Plus(a, c))
  {
  }

  lemma PlusAssociates(a: Sums, b: Sums, c: Sums)
    ensures Plus(Plus(a, b), c) == Plus(a, Plus(b, c))
  {
  }

  lemma PlusZero(a: Sums)
    ensures Plus(ZERO, a) == a
  {
  }

  lemma {:induction false} SumEmpty(n: nat, s: set<nat>, f: nat -> Sums)
    requires forall k: nat :: k !in s
    ensures SumOver(n, s, f) == ZERO
  {
    if n > 0 {
      SumEmpty(n - 1, s, f);
    }
  }

  lemma {:induction false} SumBeyond(n: nat, s: set<nat>, f: nat -> Sums, k: nat)
    requires k >= n
    ensures SumOver(n, s + {k}, f) == SumOver(n, s, f)
  {
    if n > 0 {
      SumBeyond(n - 1, s, f, k);
    }
  }

  lemma {:induction false} SumAdd(n: nat, s: set<nat>, f: nat -> Sums, k: nat)
    requires k !in s && k < n
    ensures SumOver(n, s + {k}, f) == Plus(f(k), SumOver(n, s, f))
  {
    if k == n - 1 {
      SumBeyond(n - 1, s, f, k);
      PlusZero(SumOver(n - 1, s, f));
    } else {
      SumAdd(n - 1, s, f, k);
      PlusSwap(f(k), if n - 1 in s then f(n - 1) else ZERO, SumOver(n - 1, s, f));
    }
  }

  predicate Ordered(x: Sums) {
    x.free <= x.available <= x.managed
  }

  lemma {:induction false} SumOrdered(n: nat, s: set<nat>, f: nat -> Sums)
    requires forall k <- s :: Ordered(f(k))
    ensures Ordered(SumOver(n, s, f))
  {
    if n > 0 {
      SumOrdered(n - 1, s, f);
    }
  }

  // ---------------------------------------------------------------- what each wallet contributes

  function CallPart(x: Share): Sums {
    match x.amounts
    case None => ZERO
    case Some(a) => Sums(x.managed, x.released, a.available, a.free, 0, 1)
  }

  function AnswerPart(x: Share): Sums {
    ZERO.(used := x.used.GetOr(0))
  }

  function Calls(shares: seq<Share>): nat -> Sums {
    (k: nat) => if k < |shares| then CallPart(shares[k]) else ZERO
  }

  function Answers(shares: seq<Share>): nat -> Sums {
    (k: nat) => if k < |shares| then AnswerPart(shares[k]) else ZERO
  }

  /** The totals are the plain sums over these calls and these answers. */
  ghost predicate Reflects(shares: seq<Share>, t: Totals, called: set<nat>, answered: set<nat>) {
    Flat(t) == Plus(SumOver(|shares|, called, Calls(shares)), SumOver(|shares|, answered, Answers(shares)))
  }

  lemma AddedFlat(t: Totals, x: Share)
    requires x.amounts.Some?
    ensures Flat(Added(t, x).value) == Plus(CallPart(x), Flat(t))
  {
  }

  lemma AnsweredFlat(t: Totals, x: Share)
    requires x.used.Some?
    ensures Flat(Answered(t, x.id, x.used.value)) == Plus(AnswerPart(x), Flat(t))
  {
  }

  lemma CallReflects(shares: seq<Share>, t: Totals, called: set<nat>, answered: set<nat>, k: nat)
    requires Reflects(shares, t, called, answered) && k < |shares| && k !in called && shares[k].amounts.Some?
    ensures Reflects(shares, Added(t, shares[k]).value, called + {k}, answered)
  {
    AddedFlat(t, shares[k]);
    SumAdd(|shares|, called, Calls(shares), k);
    PlusAssociates(CallPart(shares[k]), SumOver(|shares|, called, Calls(shares)),
                   SumOver(|shares|, answered, Answers(shares)));
  }

  lemma AnswerReflects(shares: seq<Share>, t: Totals, called: set<nat>, answered: set<nat>, k: nat)
    requires Reflects(shares, t, called, answered) && k < |shares| && k !in answered && shares[k].used.Some?
    ensures Reflects(shares, Answered(t, shares[k].id, shares[k].used.value), called, answered + {k})
  {
    AnsweredFlat(t, shares[k]);
    SumAdd(|shares|, answered, Answers(shares), k);
    PlusSwap(AnswerPart(shares[k]), SumOver(|shares|, called, Calls(shares)),
             SumOver(|shares|, answered, Answers(shares)));
  }

  lemma TriedSnoc(events: seq<Event>, e: Event)
    ensures Tried(events + [e]) == if e.Call? then Tried(events) + {e.k} else Tried(events)
  {
    forall k ensures k in Tried(events + [e]) <==> k in Tried(events) || (e.Call? && k == e.k) {
      if k in Tried(events) {
        var x :| x in events && x.Call? && x.k == k;
        assert x in events + [e];
      }
    }
  }

  /** The wallets whose call has been made and did not throw. */
  function Contributing(shares: seq<Share>, tried: set<nat>): set<nat> {
    set k | k in tried && k < |shares| && shares[k].amounts.Some?
  }

  ghost predicate InStep(shares: seq<Share>, p: Progress, tried: set<nat>) {
    && Reflects(shares, p.totals, p.called, p.answered)
    && p.called == Contributing(shares, tried) && p.answered <= p.called
  }

  lemma NothingReflects(shares: seq<Share>, t: Totals, called: set<nat>, answered: set<nat>)
    requires Flat(t) == ZERO && (forall k: nat :: k !in called) && forall k: nat :: k !in answered
    ensures Reflects(shares, t, called, answered)
  {
    SumEmpty(|shares|, called, Calls(shares));
    SumEmpty(|shares|, answered, Answers(shares));
    PlusZero(ZERO);
  }

  lemma StepReflects(shares: seq<Share>, p: Progress, tried: set<nat>, e: Event)
    requires InStep(shares, p, tried) && Enabled(shares, p, tried, e)
    ensures InStep(shares, Step(shares, p, e), if e.Call? then tried + {e.k} else tried)
  {
    if e.Answer? {
      AnswerReflects(shares, p.totals, p.called, p.answered, e.k);
    } else if shares[e.k].amounts.Some? {
      CallReflects(shares, p.totals, p.called, p.answered, e.k);
    }
  }

  /**
   * At every point of every interleaving the totals are the plain sums: over the calls made so far
   * that did not throw, and over the contracts that have answered.
   */
  lemma {:induction false} TotalsAreSums(shares: seq<Share>, events: seq<Event>)
    requires Possible(shares, events)
    ensures InStep(shares, After(shares, events), Tried(events))
  {
    if events == [] {
      NothingReflects(shares, NOTHING, START.called, START.answered);
      assert Contributing(shares, Tried(events)) == START.called;
    } else {
      var init, e := events[..|events| - 1], events[|events| - 1];
      TotalsAreSums(shares, init);
      assert init + [e] == events;
      TriedSnoc(init, e);
      StepReflects(shares, After(shares, init), Tried(init), e);
    }
  }

  function Shares(wallets: seq<Wallet>, timestamp: int, used: seq<Option<nat>>): (r: seq<Share>)
    requires |used| == |wallets|
    ensures |r| == |wallets|
  {
    seq(|wallets|, k requires 0 <= k < |wallets| => ShareOf(wallets[k], timestamp, used[k]))
  }

  lemma ShareOrdered(w: Wallet, timestamp: int, used: Option<nat>)
    ensures var x := ShareOf(w, timestamp, used);
            x.amounts.Some? ==> x.amounts.value.free <= x.amounts.value.available <= x.managed
  {
    if GetAvailableAmount(w, timestamp).Ok? {
      AvailableAtMost(w, timestamp);
    }
  }

  /** At every point free is at most available and available at most managed: no locked amount is negative. */
  lemma NeverNegative(wallets: seq<Wallet>, timestamp: int, used: seq<Option<nat>>, events: seq<Event>)
    requires |used| == |wallets| && Possible(Shares(wallets, timestamp, used), events)
    ensures var t := After(Shares(wallets, timestamp, used), events).totals; t.free <= t.available <= t.managed
  {
    var shares := Shares(wallets, timestamp, used);
    var p := After(shares, events);
    TotalsAreSums(shares, events);
    forall k | k in p.called ensures Ordered(Calls(shares)(k)) {
      ShareOrdered(wallets[k], timestamp, used[k]);
    }
    SumOrdered(|shares|, p.called, Calls(shares));
    SumOrdered(|shares|, p.answered, Answers(shares));
  }

  /** Every wallet was added and every contract that was asked has answered. */
  ghost predicate Complete(shares: seq<Share>, events: seq<Event>)
    requires Possible(shares, events)
  {
    && (forall k :: 0 <= k < |shares| ==> k in Tried(events))
    && (forall k <- After(shares, events).called :: k < |shares| && shares[k].used.Some? ==>
          k in After(shares, events).answered)
  }

  lemma {:induction false} AnsweredAsked(shares: seq<Share>, events: seq<Event>)
    requires Possible(shares, events)
    ensures forall k <- After(shares, events).answered :: k < |shares| && shares[k].used.Some?
  {
    if events != [] {
      AnsweredAsked(shares, events[..|events| - 1]);
    }
  }

  function All(shares: seq<Share>): set<nat> {
    set k: nat | k < |shares| && shares[k].amounts.Some?
  }

  function Asked(shares: seq<Share>): set<nat> {
    set k: nat | k < |shares| && shares[k].amounts.Some? && shares[k].used.Some?
  }

  // ---------------------------------------------------------------- the lists, apart from their order

  /** What the first `n` wallets list, of those in the set. */
  ghost function ListedOver(n: nat, s: set<nat>, f: nat -> seq<TokenData>): multiset<TokenData> {
    if n == 0 then multiset{}
    else (if n - 1 in s then multiset(f(n - 1)) else multiset{}) + ListedOver(n - 1, s, f)
  }

  lemma {:induction false} ListedEmpty(n: nat, s: set<nat>, f: nat -> seq<TokenData>)
    requires forall k: nat :: k !in s
    ensures ListedOver(n, s, f) == multiset{}
  {
    if n > 0 {
      ListedEmpty(n - 1, s, f);
    }
  }

  lemma {:induction false} ListedBeyond(n: nat, s: set<nat>, f: nat -> seq<TokenData>, k: nat)
    requires k >= n
    ensures ListedOver(n, s + {k}, f) == ListedOver(n, s, f)
  {
    if n > 0 {
      ListedBeyond(n - 1, s, f, k);
    }
  }

  lemma {:induction false} ListedAdd(n: nat, s: set<nat>, f: nat -> seq<TokenData>, k: nat)
    requires k !in s && k < n
    ensures ListedOver(n, s + {k}, f) == multiset(f(k)) + ListedOver(n, s, f)
  {
    if k == n - 1 {
      ListedBeyond(n - 1, s, f, k);
    } else {
      ListedAdd(n - 1, s, f, k);
    }
  }

  /** A contract is listed by its call if it released tokens, by its answer if it has tokens in the protocol. */
  function CallLists(shares: seq<Share>): nat -> seq<TokenData> {
    (k: nat) => if k < |shares| then Shown(shares[k].id, shares[k].released) else []
  }

  function AnswerLists(shares: seq<Share>): nat -> seq<TokenData> {
    (k: nat) => if k < |shares| then Shown(shares[k].id, shares[k].used.GetOr(0)) else []
  }

  ghost predicate Listed(shares: seq<Share>, p: Progress) {
    && multiset(p.totals.contractsReleased) == ListedOver(|shares|, p.called, CallLists(shares))
    && multiset(p.totals.contractsInProtocol) == ListedOver(|shares|, p.answered, AnswerLists(shares))
  }

  lemma StepListed(shares: seq<Share>, p: Progress, e: Event)
    requires Listed(shares, p) && e.k < |shares|
    requires if e.Call? then e.k !in p.called else e.k !in p.answered && shares[e.k].used.Some?
    ensures Listed(shares, Step(shares, p, e))
  {
    if e.Call? {
      ListedAdd(|shares|, p.called, CallLists(shares), e.k);
    } else {
      ListedAdd(|shares|, p.answered, AnswerLists(shares), e.k);
    }
  }

  /** At every point of every interleaving the two lists hold, in some order, what was called and what was answered. */
  lemma {:induction false} ListsAreSums(shares: seq<Share>, events: seq<Event>)
    requires Possible(shares, events)
    ensures Listed(shares, After(shares, events))
  {
    if events == [] {
      ListedEmpty(|shares|, START.called, CallLists(shares));
      ListedEmpty(|shares|, START.answered, AnswerLists(shares));
    } else {
      var init, e := events[..|events| - 1], events[|events| - 1];
      ListsAreSums(shares, init);
      TotalsAreSums(shares, init);
      StepListed(shares, After(shares, init), e);
    }
  }

  /**
   * Every complete schedule ends with the same totals, the plain sums over all wallets, and with
   * the same contracts listed as often, whatever the interleaving; only their order differs.
   */
  lemma CompleteTotals(shares: seq<Share>, events: seq<Event>)
    requires Possible(shares, events) && Complete(shares, events)
    ensures var t := After(shares, events).totals;
            && Reflects(shares, t, All(shares), Asked(shares))
            && multiset(t.contractsReleased) == ListedOver(|shares|, All(shares), CallLists(shares))
            && multiset(t.contractsInProtocol) == ListedOver(|shares|, Asked(shares), AnswerLists(shares))
  {
    var p := After(shares, events);
    TotalsAreSums(shares, events);
    ListsAreSums(shares, events);
    AnsweredAsked(shares, events);
    assert p.called == All(shares);
    assert p.answered == Asked(shares);
  }

  // ---------------------------------------------------------------- in terms of the wallets

  /** The wallet is counted: its schedule does not throw at this time. */
  predicate Counted(w: Wallet, timestamp: int) {
    GetAvailableAmount(w, timestamp).Ok?
  }

  /** What one wallet adds up to: nothing if it throws, and no used amount unless its contract was asked. */
  function WalletFigures(w: Wallet, timestamp: int, used: Option<nat>): Sums {
    match GetAvailableAmount(w, timestamp)
    case Err => Sums(0, 0, 0, 0, 0, 0)
    case Ok(available) =>
      match GetFreeAmount(w, timestamp)
      case Err => Sums(0, 0, 0, 0, 0, 0)
      case Ok(free) =>
        Sums(w.managedAmount, w.tokensReleased, available, free, if used.Some? then used.value else 0, 1)
  }

  function AllFigures(wallets: seq<Wallet>, timestamp: int, used: seq<Option<nat>>): (figures: seq<Sums>)
    requires |used| == |wallets|
    ensures |figures| == |wallets|
  {
    seq(|wallets|, k requires 0 <= k < |wallets| => WalletFigures(wallets[k], timestamp, used[k]))
  }

  /** The plain sum of the first `n` figures, field by field. */
  function SumUp(figures: seq<Sums>, n: nat): Sums
    requires n <= |figures|
  {
    if n == 0 then Sums(0, 0, 0, 0, 0, 0)
    else
      var x, y := figures[n - 1], SumUp(figures, n - 1);
      Sums(x.managed + y.managed, x.released + y.released, x.available + y.available, x.free + y.free,
           x.used + y.used, x.count + y.count)
  }

  function ShareFigures(x: Share): Sums {
    if x.amounts.None? then ZERO else if x.used.None? then CallPart(x) else Plus(CallPart(x), AnswerPart(x))
  }

  lemma ShareFiguresAre(x: Share)
    ensures ShareFigures(x)
         == if x.amounts.None? then Sums(0, 0, 0, 0, 0, 0)
            else Sums(x.managed, x.released, x.amounts.value.available, x.amounts.value.free,
                      if x.used.Some? then x.used.value else 0, 1)
  {
  }

  lemma FiguresOfWallet(w: Wallet, timestamp: int, used: Option<nat>)
    ensures ShareFigures(ShareOf(w, timestamp, used)) == WalletFigures(w, timestamp, used)
  {
    ShareFiguresAre(ShareOf(w, timestamp, used));
  }

  lemma SkippedWallet(a: Sums, b: Sums)
    ensures Plus(Plus(ZERO, a), Plus(ZERO, b)) == Plus(a, b)
  {
  }

  lemma CalledWallet(c: Sums, a: Sums, b: Sums)
    ensures Plus(Plus(c, a), Plus(ZERO, b)) == Plus(c, Plus(a, b))
  {
  }

  lemma AnsweredWallet(c: Sums, d: Sums, a: Sums, b: Sums)
    ensures Plus(Plus(c, a), Plus(d, b)) == Plus(Plus(c, d), Plus(a, b))
  {
  }

  lemma {:induction false} SumsOfShares(shares: seq<Share>, figures: seq<Sums>, n: nat)
    requires |figures| == |shares| && n <= |shares|
    requires forall k :: 0 <= k < |shares| ==> figures[k] == ShareFigures(shares[k])
    ensures Plus(SumOver(n, All(shares), Calls(shares)), SumOver(n, Asked(shares), Answers(shares)))
         == SumUp(figures, n)
  {
    var s, s', g, g' := All(shares), Asked(shares), Calls(shares), Answers(shares);
    if n == 0 {
      PlusZero(SumOver(n, s', g'));
    } else {
      var k := n - 1;
      SumsOfShares(shares, figures, k);
      OneMoreShare(shares[k], SumOver(k, s, g), SumOver(k, s', g'));
      SumUpSnoc(figures, k);
      SumOverSnoc(k, s, g);
      SumOverSnoc(k, s', g');
    }
  }

  lemma SumOverSnoc(k: nat, s: set<nat>, g: nat -> Sums)
    ensures SumOver(k + 1, s, g) == Plus(if k in s then g(k) else ZERO, SumOver(k, s, g))
  {
  }

  lemma OneMoreShare(x: Share, a: Sums, b: Sums)
    ensures x.amounts.None? ==> Plus(Plus(ZERO, a), Plus(ZERO, b)) == Plus(ShareFigures(x), Plus(a, b))
    ensures x.amounts.Some? && x.used.None? ==>
              Plus(Plus(CallPart(x), a), Plus(ZERO, b)) == Plus(ShareFigures(x), Plus(a, b))
    ensures x.amounts.Some? && x.used.Some? ==>
              Plus(Plus(CallPart(x), a), Plus(AnswerPart(x), b)) == Plus(ShareFigures(x), Plus(a, b))
  {
    SkippedWallet(a, b);
    PlusZero(Plus(a, b));
    CalledWallet(CallPart(x), a, b);
    AnsweredWallet(CallPart(x), AnswerPart(x), a, b);
  }

  lemma SumUpSnoc(figures: seq<Sums>, k: nat)
    requires k < |figures|
    ensures SumUp(figures, k + 1) == Plus(figures[k], SumUp(figures, k))
  {
  }

  /**
   * Every complete schedule ends with the plain totals over the wallets whose schedule does not
   * throw: of what they manage, have released, have available and free, and of what the contracts
   * that were asked reported as used.
   */
  lemma SummaryOfWallets(wallets: seq<Wallet>, timestamp: int, used: seq<Option<nat>>, events: seq<Event>)
    requires |used| == |wallets|
    requires var shares := Shares(wallets, timestamp, used); Possible(shares, events) && Complete(shares, events)
    ensures var t := After(Shares(wallets, timestamp, used), events).totals;
            Sums(t.managed, t.released, t.available, t.free, t.used, t.count)
            == SumUp(AllFigures(wallets, timestamp, used), |wallets|)
  {
    var shares, figures := Shares(wallets, timestamp, used), AllFigures(wallets, timestamp, used);
    CompleteTotals(shares, events);
    forall k | 0 <= k < |shares| ensures figures[k] == ShareFigures(shares[k]) {
      FiguresOfWallet(wallets[k], timestamp, used[k]);
    }
    SumsOfShares(shares, figures, |wallets|);
  }

  /** What a wallet puts on the two lists, and when it and its contract are counted. */
  lemma ListsOfWallet(wallets: seq<Wallet>, timestamp: int, used: seq<Option<nat>>, k: nat)
    requires |used| == |wallets| && k < |wallets|
    ensures var shares := Shares(wallets, timestamp, used);
            && (k in All(shares) <==> Counted(wallets[k], timestamp))
            && (k in Asked(shares) <==> Counted(wallets[k], timestamp) && used[k].Some?)
            && CallLists(shares)(k) == (if wallets[k].tokensReleased > 0
                                        then [TokenData(wallets[k].id, wallets[k].tokensReleased)] else [])
            && AnswerLists(shares)(k) == if used[k].Some? && used[k].value > 0
                                         then [TokenData(wallets[k].id, used[k].value)] else []
  {
    CountedIff(wallets[k], timestamp, used[k]);
  }

  lemma CountedIff(w: Wallet, timestamp: int, used: Option<nat>)
    ensures ShareOf(w, timestamp, used).amounts.Some? <==> Counted(w, timestamp)
  {
  }

  /** The contracts with released tokens, in the order of the calls that did not throw. */
  function ReleasedInOrder(shares: seq<Share>, events: seq<Event>): seq<TokenData> {
    if events == [] then []
    else
      var e := events[|events| - 1];
      ReleasedInOrder(shares, events[..|events| - 1])
      + if e.Call? && e.k < |shares| && shares[e.k].amounts.Some? then Shown(shares[e.k].id, shares[e.k].released)
        else []
  }

  /** The contracts with tokens in the protocol, in the order of the answers. */
  function UsedInOrder(shares: seq<Share>, events: seq<Event>): seq<TokenData> {
    if events == [] then []
    else
      var e := events[|events| - 1];
      UsedInOrder(shares, events[..|events| - 1])
      + if e.Answer? && e.k < |shares| then Shown(shares[e.k].id, shares[e.k].used.GetOr(0)) else []
  }

  /** The two lists depend on the schedule: calls list what was released, answers what is in the protocol. */
  lemma {:induction false} ListsFollowSchedule(shares: seq<Share>, events: seq<Event>)
    requires Possible(shares, events)
    ensures var t := After(shares, events).totals;
            && t.contractsReleased == ReleasedInOrder(shares, events)
            && t.contractsInProtocol == UsedInOrder(shares, events)
  {
    if events != [] {
      ListsFollowSchedule(shares, events[..|events| - 1]);
    }
  }
}

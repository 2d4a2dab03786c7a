/**
 * Vesting arithmetic of a token-lock wallet, with doubles as exact rationals. Amounts are whole
 * token units, times are whole seconds.
 */
module Vesting {
  import opened Wrappers

  datatype Wallet = Wallet(
    id: string,
    managedAmount: nat,
    periods: nat,
    startTime: int,
    endTime: int,
    releaseStartTime: int,
    vestingCliffTime: int,
    revocable: bool,
    tokensReleased: nat)

  /** How often `d` fits into `x`: whole division, without the operator. */
  function Whole(x: nat, d: nat): (q: nat)
    requires d > 0
    ensures q * d <= x < q * d + d
  {
    if x < d then 0 else 1 + Whole(x - d, d)
  }

  /** `Math.floor(sinceStartTime / periodDuration + 1) - 1`. */
  function PassedPeriods(sinceStartTime: nat, duration: nat, periods: nat): (k: nat)
    requires duration > 0 && periods > 0
    ensures k == Whole(sinceStartTime * periods, duration)
  {
    PeriodsElapsed(sinceStartTime, duration, periods);
    var periodDuration := duration as real / periods as real;
    (sinceStartTime as real / periodDuration + 1.0).Floor - 1
  }

  lemma PeriodsElapsed(sinceStartTime: nat, duration: nat, periods: nat)
    requires duration > 0 && periods > 0
    ensures duration as real / periods as real != 0.0
    ensures (sinceStartTime as real / (duration as real / periods as real) + 1.0).Floor - 1
         == Whole(sinceStartTime * periods, duration)
  {
    DivideTwice(sinceStartTime as real, duration as real, periods as real);
    ProductReal(sinceStartTime, periods);
    FloorOfQuotient(sinceStartTime * periods, duration);
    FloorOfNext(sinceStartTime as real / (duration as real / periods as real),
                (sinceStartTime * periods) as real / duration as real);
  }

  /** Inside the schedule the division by `periods` or by a zero-length period throws. */
  function GetAvailableAmount(w: Wallet, current: int): Result<nat> {
    if current < w.startTime then Ok(0)
    else if current > w.endTime then Ok(w.managedAmount)
    else
      var sinceStartTime := if current > w.startTime then current - w.startTime else 0;
      if w.periods == 0 || w.startTime == w.endTime then Err
      else Ok(Times(AmountPerPeriod(w), PassedPeriods(sinceStartTime, w.endTime - w.startTime, w.periods)))
  }

  function AmountPerPeriod(w: Wallet): (a: nat)
    requires w.periods > 0
    ensures a == Whole(w.managedAmount, w.periods)
  {
    WholeIsDivision(w.managedAmount, w.periods);
    w.managedAmount / w.periods
  }

  function Times(a: nat, b: nat): nat { a * b }

  function GetFreeAmount(w: Wallet, current: int): Result<nat> {
    if w.releaseStartTime > 0 && w.releaseStartTime > current then Ok(0)
    else if w.revocable && w.vestingCliffTime > 0 && w.vestingCliffTime > current then Ok(0)
    else GetAvailableAmount(w, current)
  }

  // ---------------------------------------------------------------- division

  lemma MulMonotone(x: nat, y: nat, c: nat)
    requires x <= y
    ensures x * c <= y * c
  {
  }

  /** There is only one whole quotient. */
  lemma WholeUnique(x: nat, d: nat, q: nat)
    requires d > 0 && q * d <= x < q * d + d
    ensures q == Whole(x, d)
  {
    var k := Whole(x, d);
    if q < k {
      MulMonotone(q + 1, k, d);
    } else if k < q {
      MulMonotone(k + 1, q, d);
    }
  }

  lemma WholeIsDivision(x: nat, d: nat)
    requires d > 0
    ensures x / d == Whole(x, d)
  {
    var q := x / d;
    assert q * d <= x < q * d + d;
    WholeUnique(x, d, q);
  }

  lemma ProductReal(a: nat, b: nat)
    ensures (a * b) as real == a as real * b as real
  {
  }

  lemma DivideTwice(s: real, d: real, p: real)
    requires d > 0.0 && p > 0.0
    ensures d / p > 0.0 && s / (d / p) == s * p / d
  {
  }

  lemma RealQuotient(x: real, q: real, d: real)
    requires d > 0.0 && q * d <= x < q * d + d
    ensures q <= x / d < q + 1.0
  {
    assert (x / d) * d == x;
    ScaleCompare(q, x / d, d);
    ScaleCompare(q + 1.0, x / d, d);
  }

  lemma ScaleCompare(a: real, b: real, d: real)
    requires d > 0.0
    ensures a * d <= b * d <==> a <= b
  {
    if a > b {
      assert (a - b) * d > 0.0;
    } else {
      assert (b - a) * d >= 0.0;
    }
  }

  lemma FloorOfQuotient(x: nat, d: nat)
    requires d > 0
    ensures (x as real / d as real).Floor == Whole(x, d)
  {
    var q := Whole(x, d);
    ProductReal(q, d);
    RealQuotient(x as real, q as real, d as real);
  }

  lemma FloorOfNext(x: real, y: real)
    requires x == y
    ensures (x + 1.0).Floor - 1 == y.Floor
  {
  }

  // ---------------------------------------------------------------- accuracy

  /** m * s against a * k * d, where m = a * p + r and s * p = k * d + f. */
  lemma StaircaseBelowLine(m: nat, p: nat, a: nat, s: nat, d: nat, k: nat)
    requires a * p <= m < a * p + p && k * d <= s * p < k * d + d && s <= d
    ensures a * k * d <= m * s < a * k * d + (a + p) * d
  {
    var r, f := m - a * p, s * p - k * d;
    calc {
      m * s;
      (a * p + r) * s;
      a * (s * p) + r * s;
      a * (k * d + f) + r * s;
      a * k * d + (a * f + r * s);
    }
    Below(f, d, a);
    Below(s, d, r);
    assert r * d + d <= p * d by { MulMonotone(r + 1, p, d); }
    assert (a + p) * d == a * d + p * d;
  }

  lemma Below(x: nat, y: nat, c: nat)
    requires x <= y
    ensures 0 <= c * x <= c * y
  {
  }

  /** Inside the schedule the amount is that of the whole periods passed. */
  lemma AvailableInside(w: Wallet, t: int)
    requires w.startTime <= t <= w.endTime && w.startTime < w.endTime && w.periods > 0
    ensures GetAvailableAmount(w, t)
         == Ok(Staircase(w.managedAmount, w.periods, t - w.startTime, w.endTime - w.startTime))
  {
  }

  function Staircase(m: nat, p: nat, s: nat, d: nat): nat
    requires p > 0 && d > 0
  {
    Times(Whole(m, p), Whole(s * p, d))
  }

  lemma StaircaseAccuracy(m: nat, p: nat, s: nat, d: nat)
    requires p > 0 && d > 0 && s <= d
    ensures var linear := (m * s) as real / d as real;
            linear - (Whole(m, p) + p) as real < Staircase(m, p, s, d) as real <= linear
  {
    StaircaseBelowLine(m, p, Whole(m, p), s, d, Whole(s * p, d));
    DividedBetween(m * s, Staircase(m, p, s, d), Whole(m, p) + p, d);
  }

  /**
   * Between start and end the amount never exceeds the linear one, and falls short of it by less
   * than one period's amount plus the number of periods.
   */
  lemma VestingAccuracy(w: Wallet, t: int)
    requires w.startTime <= t <= w.endTime && w.startTime < w.endTime && w.periods > 0
    ensures var linear := (w.managedAmount * (t - w.startTime)) as real / (w.endTime - w.startTime) as real;
            var available := GetAvailableAmount(w, t);
            && available.Ok?
            && linear - (Whole(w.managedAmount, w.periods) + w.periods) as real < available.value as real <= linear
  {
    AvailableInside(w, t);
    StaircaseAccuracy(w.managedAmount, w.periods, t - w.startTime, w.endTime - w.startTime);
  }

  lemma DividedBetween(x: nat, y: nat, gap: nat, d: nat)
    requires d > 0 && y * d <= x < y * d + gap * d
    ensures x as real / d as real - gap as real < y as real <= x as real / d as real
  {
    ProductReal(y, d);
    ProductReal(gap, d);
    var q := x as real / d as real;
    assert q * d as real == x as real;
    RealBetween(q, y as real, gap as real, d as real);
  }

  lemma RealBetween(q: real, y: real, gap: real, d: real)
    requires d > 0.0 && y * d <= q * d < y * d + gap * d
    ensures q - gap < y <= q
  {
    ScaleCompare(y, q, d);
    ScaleCompare(y + gap, q, d);
  }

  lemma StaircaseAtEnd(m: nat, p: nat, d: nat)
    requires p > 0 && d > 0
    ensures Staircase(m, p, d, d) == Times(Whole(m, p), p)
  {
    WholeUnique(d * p, d, p);
  }

  lemma EvenlyDivided(m: nat, p: nat)
    requires p > 0
    ensures Times(Whole(m, p), p) == m <==> m % p == 0
  {
    WholeIsDivision(m, p);
  }

  /** The amount at the end of the schedule lacks only what does not divide evenly. */
  lemma AvailableAtEnd(w: Wallet)
    requires w.startTime < w.endTime && w.periods > 0
    ensures GetAvailableAmount(w, w.endTime) == Ok(Times(Whole(w.managedAmount, w.periods), w.periods))
    ensures GetAvailableAmount(w, w.endTime) == Ok(w.managedAmount) <==> w.managedAmount % w.periods == 0
  {
    AvailableInside(w, w.endTime);
    StaircaseAtEnd(w.managedAmount, w.periods, w.endTime - w.startTime);
    EvenlyDivided(w.managedAmount, w.periods);
  }

  /** The computation throws exactly inside a schedule without periods or without length. */
  lemma ThrowsIff(w: Wallet, t: int)
    ensures GetAvailableAmount(w, t).Err?
       <==> w.startTime <= t <= w.endTime && (w.periods == 0 || w.startTime == w.endTime)
  {
  }

  lemma WholeMonotone(x: nat, y: nat, d: nat)
    requires x <= y && d > 0
    ensures Whole(x, d) <= Whole(y, d)
  {
    if Whole(y, d) < Whole(x, d) {
      MulMonotone(Whole(y, d) + 1, Whole(x, d), d);
    }
  }

  lemma StaircaseAtMost(m: nat, p: nat, s: nat, d: nat)
    requires p > 0 && d > 0 && s <= d
    ensures Staircase(m, p, s, d) <= m
  {
    WholeUnique(d * p, d, p);
    MulMonotone(s, d, p);
    WholeMonotone(s * p, d * p, d);
    Below(Whole(s * p, d), p, Whole(m, p));
  }

  lemma StaircaseMonotone(m: nat, p: nat, s: nat, s': nat, d: nat)
    requires p > 0 && d > 0 && s <= s'
    ensures Staircase(m, p, s, d) <= Staircase(m, p, s', d)
  {
    MulMonotone(s, s', p);
    WholeMonotone(s * p, s' * p, d);
    Below(Whole(s * p, d), Whole(s' * p, d), Whole(m, p));
  }

  /** What is available is free once both gates are open; before that nothing is, even where the schedule throws. */
  lemma FreeIff(w: Wallet, t: int)
    ensures var released := w.releaseStartTime <= 0 || w.releaseStartTime <= t;
            var pastCliff := !w.revocable || w.vestingCliffTime <= 0 || w.vestingCliffTime <= t;
            GetFreeAmount(w, t) == if released && pastCliff then GetAvailableAmount(w, t) else Ok(0)
  {
  }

  /** Whenever it does not throw: available is at most managed, and free is at most available. */
  lemma AvailableAtMost(w: Wallet, t: int)
    requires GetAvailableAmount(w, t).Ok?
    ensures GetAvailableAmount(w, t).value <= w.managedAmount
    ensures GetFreeAmount(w, t).Ok? && GetFreeAmount(w, t).value <= GetAvailableAmount(w, t).value
  {
    if w.startTime <= t <= w.endTime {
      AvailableInside(w, t);
      StaircaseAtMost(w.managedAmount, w.periods, t - w.startTime, w.endTime - w.startTime);
    }
  }

  /** Over all times: never more than managed, everything after the end, and never falling. */
  lemma AvailableMonotone(w: Wallet, t: int, t': int)
    requires t <= t' && w.startTime < w.endTime && w.periods > 0
    ensures GetAvailableAmount(w, t).Ok? && GetAvailableAmount(w, t').Ok?
    ensures GetAvailableAmount(w, t).value <= GetAvailableAmount(w, t').value <= w.managedAmount
    ensures t > w.endTime ==> GetAvailableAmount(w, t) == Ok(w.managedAmount)
    ensures t < w.startTime ==> GetAvailableAmount(w, t) == Ok(0)
  {
    AvailableAtMost(w, t');
    if w.startTime <= t && t' <= w.endTime {
      AvailableInside(w, t);
      AvailableInside(w, t');
      StaircaseMonotone(w.managedAmount, w.periods, t - w.startTime, t' - w.startTime, w.endTime - w.startTime);
    } else {
      AvailableAtMost(w, t);
    }
  }

  /** The free amount never falls either: its gates only open. */
  lemma FreeMonotone(w: Wallet, t: int, t': int)
    requires t <= t' && w.startTime < w.endTime && w.periods > 0
    ensures GetFreeAmount(w, t).Ok? && GetFreeAmount(w, t').Ok?
    ensures GetFreeAmount(w, t).value <= GetFreeAmount(w, t').value
  {
    AvailableMonotone(w, t, t');
  }
}

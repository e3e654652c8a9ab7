/**
  Interest accrual and payment arithmetic of one cash advance, stated on values.

  An advance owes `remaining` of principal and accrues `remaining * rate` of
  interest for every whole day after `last`, the date up to which interest has
  been settled. Calendar dates are day numbers: adding `timedelta(days = n)` to
  a date is `+ n`, and subtracting two dates gives the difference in days.
  Money and rates are exact reals.
 */
module Accrual {

  type Day = int

  /** What the payments of an advance read and change: outstanding principal,
      daily interest rate and the date interest was last settled up to. */
  datatype AdvanceState = AdvanceState(remaining: real, rate: real, last: Day)

  /** The state every advance of a ledger keeps: no negative principal or rate. */
  predicate NonNegative(s: AdvanceState)
  {
    s.remaining >= 0.0 && s.rate >= 0.0
  }

  /** An advance is closed (paid off) exactly when no principal remains. */
  predicate IsClose(s: AdvanceState)
  {
    s.remaining == 0.0
  }

  /** `n` days' worth of the daily amount `b`, that is `n * b` (see `TimesIsProduct`). */
  function Times(n: nat, b: real): real
  {
    if n == 0 then 0.0 else Times(n - 1, b) + b
  }

  /** Interest that one more day adds; it follows partial paydowns of principal. */
  function InterestByDay(s: AdvanceState): (r: real)
    ensures NonNegative(s) ==> r >= 0.0
    ensures IsClose(s) ==> r == 0.0
  {
    MulMonotone(0.0, s.remaining, s.rate);
    s.remaining * s.rate
  }

  /** Whole days from `s.last` to `to`; a date not after `s.last` gives none. */
  function DaysFromLastInterestPayment(s: AdvanceState, to: Day): (n: nat)
    ensures to <= s.last ==> n == 0
    ensures s.last < to ==> s.last + n == to
  {
    if to <= s.last then 0 else to - s.last
  }

  /** Interest accrued and not yet settled as of `to`. */
  function InterestPayable(s: AdvanceState, to: Day): (r: real)
    ensures NonNegative(s) ==> r >= 0.0
    ensures IsClose(s) || to <= s.last ==> r == 0.0
  {
    var n := DaysFromLastInterestPayment(s, to);
    var b := InterestByDay(s);
    TimesNonNegative(n, b);
    TimesOfZero(n, b);
    Times(n, b)
  }

  /** Accrual over a period splits at any date inside it. */
  lemma AccrualSplits(s: AdvanceState, mid: Day, to: Day)
    requires s.last <= mid <= to
    ensures InterestPayable(s, to) == InterestPayable(s, mid) + InterestPayable(s.(last := mid), to)
  {
    TimesAdds(mid - s.last, to - mid, InterestByDay(s));
  }

  /** Querying the day after `to` counts `to` itself as an accrued day. */
  lemma InclusiveCutoff(s: AdvanceState, to: Day)
    requires s.last <= to
    ensures InterestPayable(s, to + 1) == InterestPayable(s, to) + InterestByDay(s)
    ensures InterestPayable(s, to + 1) == (to - s.last + 1) as real * InterestByDay(s)
  {
    TimesIsProduct(to - s.last + 1, InterestByDay(s));
  }

  /** What `pay_capital` does to an advance and the part of the amount it returns unused. */
  datatype CapitalOutcome = CapitalOutcome(after: AdvanceState, rest: real)

  function PayCapital(s: AdvanceState, amount: real): (r: CapitalOutcome)
    ensures r.after.rate == s.rate && r.after.last == s.last
    ensures (s.remaining - r.after.remaining) + r.rest == amount
    ensures r.after.remaining >= 0.0 && r.rest >= 0.0
    ensures amount >= 0.0 && s.remaining >= 0.0 ==> r.after.remaining <= s.remaining
    ensures r.rest == 0.0 || IsClose(r.after)
  {
    var left := s.remaining - amount;
    if left < 0.0 then CapitalOutcome(s.(remaining := 0.0), -left)
    else CapitalOutcome(s.(remaining := left), 0.0)
  }

  /** The contract of `PayCapital` pins both results down: the principal left is
      max(0, remaining - amount) and the unused rest is max(0, amount - remaining). */
  lemma PayCapitalClamps(s: AdvanceState, amount: real)
    ensures var r := PayCapital(s, amount);
      && r.after.remaining == (if s.remaining > amount then s.remaining - amount else 0.0)
      && r.rest == (if amount > s.remaining then amount - s.remaining else 0.0)
  {
  }

  /** What `pay_interest` does to an advance: the unused rest and the interest paid. */
  datatype InterestOutcome = InterestOutcome(after: AdvanceState, rest: real, paid: real)

  function PayInterest(s: AdvanceState, amount: real, paymentDate: Day): (r: InterestOutcome)
    requires amount >= 0.0
    ensures r.after.remaining == s.remaining && r.after.rate == s.rate
    ensures r.rest + r.paid == amount && r.rest >= 0.0
    ensures NonNegative(s) ==> r.paid >= 0.0
    // interest paid leaves the books: what stays payable is what was payable less what was paid
    ensures r.paid + InterestPayable(r.after, paymentDate) == InterestPayable(s, paymentDate)
    // enough to settle everything: the clock moves to the payment date (even an earlier one)
    ensures amount >= InterestPayable(s, paymentDate) ==>
      r.paid == InterestPayable(s, paymentDate) && r.after.last == paymentDate
    // not enough: only whole days are bought, the clock stays before the payment date
    // and less than one more day's interest is left unused
    ensures amount < InterestPayable(s, paymentDate) ==>
      && InterestByDay(s) > 0.0
      && s.last <= r.after.last < paymentDate
      && r.paid == Times(r.after.last - s.last, InterestByDay(s))
      && r.rest < InterestByDay(s)
  {
    var interest := InterestPayable(s, paymentDate);
    if amount >= interest then
      InterestOutcome(s.(last := paymentDate), amount - interest, interest)
    else
      var byDay := InterestByDay(s);
      var days := DaysFromLastInterestPayment(s, paymentDate);
      TimesPositive(days, byDay);
      var k := (amount / byDay).Floor;
      FloorDivision(amount, byDay);
      TimesMonotone(days, k, byDay);
      TimesAdds(k, days - k, byDay);
      TimesNonNegative(k, byDay);
      var r := InterestOutcome(s.(last := s.last + k), amount - Times(k, byDay), Times(k, byDay));
      assert InterestByDay(r.after) == byDay;
      assert DaysFromLastInterestPayment(r.after, paymentDate) == days - k;
      assert InterestPayable(r.after, paymentDate) == Times(days - k, byDay);
      r
  }

  /** A payment dated on or after the interest clock never moves it back, and never
      past the payment date. */
  lemma ChronologicalPaymentKeepsClock(s: AdvanceState, amount: real, paymentDate: Day)
    requires amount >= 0.0 && s.last <= paymentDate
    ensures s.last <= PayInterest(s, amount, paymentDate).after.last <= paymentDate
  {
  }

  /** A payment dated before the clock moves the clock back to its own date, and
      interest that had been settled for the days in between becomes payable again. */
  lemma EarlierPaymentRewindsClock(s: AdvanceState, amount: real, paymentDate: Day)
    requires amount >= 0.0 && paymentDate < s.last
    requires s.remaining > 0.0 && s.rate > 0.0
    ensures var r := PayInterest(s, amount, paymentDate);
      && r.after.last == paymentDate
      && r.paid == 0.0
      && InterestPayable(s, s.last) == 0.0 < InterestPayable(r.after, s.last)
  {
    MulStrict(0.0, s.remaining, s.rate);
    assert InterestByDay(s) > 0.0;
    TimesPositive(s.last - paymentDate, InterestByDay(s));
    var r := PayInterest(s, amount, paymentDate);
    assert r.after.last == paymentDate;
    assert r.paid == 0.0;
    assert DaysFromLastInterestPayment(r.after, s.last) == s.last - paymentDate;
  }

  /** A payment smaller than one day's interest buys no day and is returned whole. */
  lemma LessThanADayBuysNothing(s: AdvanceState, amount: real, paymentDate: Day)
    requires 0.0 <= amount < InterestByDay(s) && s.last < paymentDate
    ensures var r := PayInterest(s, amount, paymentDate);
      r.paid == 0.0 && r.rest == amount && r.after == s
  {
    var r := PayInterest(s, amount, paymentDate);
    var b := InterestByDay(s);
    TimesMonotone(1, paymentDate - s.last, b);
    TimesMonotone(1, r.after.last - s.last, b);
  }

  /** A payment of 2.5 against 4 days of 1.0 pays two whole days and returns 0.5. */
  lemma PartialDayExample()
    ensures PayInterest(AdvanceState(1000.0, 0.001, 0), 2.5, 4)
         == InterestOutcome(AdvanceState(1000.0, 0.001, 2), 0.5, 2.0)
  {
    assert InterestByDay(AdvanceState(1000.0, 0.001, 0)) == 1.0;
    assert (2.5 / 1.0).Floor == 2;
  }

  // Arithmetic of `Times` and of real products. Each fact that needs
  // multiplication is proved on its own, so that the proofs above only add.

  lemma {:induction false} TimesIsProduct(n: nat, b: real)
    ensures Times(n, b) == n as real * b
  {
    if n > 0 {
      TimesIsProduct(n - 1, b);
      OneMore((n - 1) as real, n as real, b);
    }
  }

  lemma {:induction false} TimesAdds(m: nat, n: nat, b: real)
    ensures Times(m + n, b) == Times(m, b) + Times(n, b)
  {
    if n > 0 {
      TimesAdds(m, n - 1, b);
    }
  }

  lemma {:induction false} TimesNonNegative(n: nat, b: real)
    ensures b >= 0.0 ==> Times(n, b) >= 0.0
  {
    if n > 0 {
      TimesNonNegative(n - 1, b);
    }
  }

  lemma {:induction false} TimesOfZero(n: nat, b: real)
    ensures b == 0.0 ==> Times(n, b) == 0.0
  {
    if n > 0 {
      TimesOfZero(n - 1, b);
    }
  }

  /** More days of a positive daily amount is more money; more money means more days. */
  lemma {:induction false} TimesMonotone(m: nat, n: nat, b: real)
    requires b > 0.0
    ensures m <= n <==> Times(m, b) <= Times(n, b)
  {
    if m <= n {
      TimesAdds(m, n - m, b);
      TimesNonNegative(n - m, b);
    } else {
      TimesAdds(n, m - n, b);
      TimesPositive(m - n, b);
    }
  }

  /** A positive accrual needs at least one day and a positive daily amount. */
  lemma {:induction false} TimesPositive(n: nat, b: real)
    ensures Times(n, b) > 0.0 <==> n > 0 && b > 0.0
  {
    if n > 0 {
      TimesPositive(n - 1, b);
      TimesNonPositive(n, b);
    }
  }

  lemma {:induction false} TimesNonPositive(n: nat, b: real)
    ensures b <= 0.0 ==> Times(n, b) <= 0.0
  {
    if n > 0 {
      TimesNonPositive(n - 1, b);
    }
  }

  /** `floor(a / b)` whole units of `b` fit in `a`, and less than one more unit is left. */
  lemma FloorDivision(a: real, b: real)
    requires a >= 0.0 && b > 0.0
    ensures (a / b).Floor >= 0
    ensures Times((a / b).Floor, b) <= a < Times((a / b).Floor, b) + b
  {
    var q := a / b;
    DivisionCancels(a, b);
    QuotientSign(q, a, b);
    var k := q.Floor;
    TimesIsProduct(k, b);
    UnitsBelow(k as real, q, a, b);
    UnitsAbove(k as real, k as real + 1.0, q, a, b);
  }

  lemma DivisionCancels(a: real, b: real)
    requires b != 0.0
    ensures a == (a / b) * b
  {
  }

  lemma QuotientSign(q: real, a: real, b: real)
    requires b > 0.0 && a == q * b && a >= 0.0
    ensures q >= 0.0
  {
    MulStrict(q, 0.0, b);
  }

  lemma UnitsBelow(k: real, q: real, a: real, b: real)
    requires b > 0.0 && a == q * b && k <= q
    ensures k * b <= a
  {
    MulMonotone(k, q, b);
  }

  lemma UnitsAbove(k: real, k1: real, q: real, a: real, b: real)
    requires b > 0.0 && a == q * b && q < k1 && k1 == k + 1.0
    ensures a < k * b + b
  {
    MulStrict(q, k1, b);
    OneMore(k, k1, b);
  }

  lemma OneMore(k: real, k1: real, b: real)
    requires k1 == k + 1.0
    ensures k1 * b == k * b + b
  {
  }

  /** Multiplying by a non-negative factor keeps `<=`. */
  lemma MulMonotone(x: real, y: real, b: real)
    ensures b >= 0.0 && x <= y ==> x * b <= y * b
  {
    if b >= 0.0 && x <= y {
      var d := y - x;
      assert d * b >= 0.0;
    }
  }

  /** Multiplying by a positive factor keeps `<`. */
  lemma MulStrict(x: real, y: real, b: real)
    ensures b > 0.0 && x < y ==> x * b < y * b
  {
    if b > 0.0 && x < y {
      var d := y - x;
      assert d * b > 0.0;
    }
  }
}

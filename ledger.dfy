/**
  The ledger of one customer (class `Balance`) and its advances (class `Advance`),
  as objects whose fields the operations update in place.

  The ledger keeps every advance it ever disbursed in `advances`, a working list
  `unpaidAdvances` that the sweeps walk, the `payments` received, the cash
  buffer `balance` waiting to be applied and the running `interestPaid`.
 */
module Ledger {
  import opened Accrual
  import opened Allocation

  datatype Option<T> = None | Some(value: T)

  /** A payment as it is recorded; it has no behaviour of its own. */
  datatype Payment = Payment(creationDate: Day, amount: real)

  /** One disbursed amount with its own interest clock. */
  class Advance {
    const creationDate: Day
    const initialAmount: real
    const dailyInterestRate: real
    var remainingAmount: real
    var lastInterestPaymentDate: Day

    /** The fields that accrual and payments read and change. */
    function State(): AdvanceState
      reads this
    {
      AdvanceState(remainingAmount, dailyInterestRate, lastInterestPaymentDate)
    }

    /** The interest clock starts on the creation date; the amount still to repay is the
        whole amount unless the caller gives it. */
    constructor (creationDate: Day, amount: real, dailyInterestRate: real, remainingAmount: Option<real>)
      ensures this.creationDate == creationDate && initialAmount == amount
      ensures State() == AdvanceState(
        if remainingAmount.Some? then remainingAmount.value else amount, dailyInterestRate, creationDate)
    {
      this.creationDate := creationDate;
      initialAmount := amount;
      this.remainingAmount := if remainingAmount.Some? then remainingAmount.value else amount;
      this.dailyInterestRate := dailyInterestRate;
      lastInterestPaymentDate := creationDate;
    }

    /** Reduces the principal by `amount`, clamping at zero, and returns what was not needed. */
    method PayCapital(amount: real) returns (rest: real)
      modifies this
      ensures var r := Accrual.PayCapital(old(State()), amount);
        State() == r.after && rest == r.rest
    {
      remainingAmount := remainingAmount - amount;
      if remainingAmount < 0.0 {
        rest := -remainingAmount;
        remainingAmount := 0.0;
        return;
      }
      rest := 0.0;
    }

    /** Pays the interest accrued up to `paymentDate`, in whole days when `amount` falls
        short, and returns what was not needed and what was paid. */
    method PayInterest(amount: real, paymentDate: Day) returns (rest: real, interestPaid: real)
      requires amount >= 0.0
      modifies this
      ensures var r := Accrual.PayInterest(old(State()), amount, paymentDate);
        State() == r.after && rest == r.rest && interestPaid == r.paid
    {
      ghost var r := Accrual.PayInterest(State(), amount, paymentDate);
      var interest := InterestPayable(State(), paymentDate);
      if amount >= interest {
        lastInterestPaymentDate := paymentDate;
        return amount - interest, interest;
      } else {
        var interestByDay := InterestByDay(State());
        FloorDivision(amount, interestByDay);
        var interestPaidInDays := (amount / interestByDay).Floor;
        lastInterestPaymentDate := lastInterestPaymentDate + interestPaidInDays;
        TimesIsProduct(interestPaidInDays, interestByDay);
        var interestAmount := interestPaidInDays as real * interestByDay;
        return amount - interestAmount, interestAmount;
      }
    }
  }

  /** No entry appears twice. */
  ghost predicate Distinct<T>(s: seq<T>)
    decreases |s|
  {
    |s| <= 1 || (s[0] !in s[1..] && Distinct(s[1..]))
  }

  lemma {:induction false} DistinctAt<T>(s: seq<T>, i: int, j: int)
    requires Distinct(s) && 0 <= i < j < |s|
    ensures s[i] != s[j]
    decreases i
  {
    if i == 0 {
      assert s[j] == s[1..][j - 1];
    } else {
      DistinctAt(s[1..], i - 1, j - 1);
    }
  }

  lemma {:induction false} DistinctAppend<T>(s: seq<T>, x: T)
    requires Distinct(s) && x !in s
    ensures Distinct(s + [x])
    decreases |s|
  {
    if s != [] {
      assert (s + [x])[1..] == s[1..] + [x];
      DistinctAppend(s[1..], x);
    }
  }

  /** The states of a list of advances, in list order. */
  function States(s: seq<Advance>): (r: seq<AdvanceState>)
    reads s
    ensures |r| == |s| && forall k :: 0 <= k < |s| ==> r[k] == s[k].State()
  {
    if s == [] then [] else [s[0].State()] + States(s[1..])
  }

  /** `list.remove(x)`: the list without the first entry equal to `x`. */
  function RemoveFirst<T(==)>(s: seq<T>, x: T): (r: seq<T>)
    ensures x !in s ==> r == s
    ensures x in s ==> |r| == |s| - 1
  {
    if s == [] then [] else if s[0] == x then s[1..] else [s[0]] + RemoveFirst(s[1..], x)
  }

  lemma {:induction false} RemoveFirstAt<T>(a: seq<T>, x: T, b: seq<T>)
    requires x !in a
    ensures RemoveFirst(a + [x] + b, x) == a + b
    decreases |a|
  {
    var s := a + [x] + b;
    if a != [] {
      RemoveFirstAt(a[1..], x, b);
      assert s[0] == a[0] && a[0] != x;
      assert s[1..] == a[1..] + [x] + b;
      assert [a[0]] + (a[1..] + b) == a + b;
    } else {
      assert s == [x] + b && s[0] == x && s[1..] == b;
    }
  }

  /** Removing an entry from a list without repeats leaves a list without repeats
      holding everything else. */
  lemma {:induction false} RemoveFirstDistinct<T>(s: seq<T>, x: T)
    requires Distinct(s)
    ensures Distinct(RemoveFirst(s, x))
    ensures forall y :: y in RemoveFirst(s, x) <==> y in s && y != x
    ensures x in s ==> |RemoveFirst(s, x)| == |s| - 1
    decreases |s|
  {
    if s != [] {
      if |s| == 1 {
        assert s[1..] == [];
      }
      if s[0] != x {
        RemoveFirstDistinct(s[1..], x);
        var r := RemoveFirst(s[1..], x);
        assert ([s[0]] + r)[1..] == r;
      }
    }
  }

  lemma {:induction false} KeepSubset<T>(s: seq<T>, kept: seq<bool>)
    requires |kept| == |s|
    ensures forall x :: x in Keep(s, kept) ==> x in s
    decreases |s|
  {
    if s != [] {
      KeepSubset(s[1..], kept[1..]);
    }
  }

  lemma {:induction false} StatesKeep(s: seq<Advance>, kept: seq<bool>)
    requires |kept| == |s|
    ensures States(Keep(s, kept)) == Keep(States(s), kept)
    decreases |s|
  {
    if s != [] {
      StatesKeep(s[1..], kept[1..]);
      assert States(s)[1..] == States(s[1..]);
      var rest := Keep(s[1..], kept[1..]);
      if kept[0] {
        assert Keep(s, kept) == [s[0]] + rest;
        assert ([s[0]] + rest)[1..] == rest;
      } else {
        assert Keep(s, kept) == rest;
      }
    }
  }

  /** Keeping one more position of the list. */
  lemma KeepPrefixStep<T>(list: seq<T>, kept: seq<bool>, j: nat)
    requires |kept| == |list| && j < |list|
    ensures Keep(list[..j + 1], kept[..j + 1]) == Keep(list[..j], kept[..j]) + (if kept[j] then [list[j]] else [])
  {
    assert list[..j + 1] == list[..j] + [list[j]] && kept[..j + 1] == kept[..j] + [kept[j]];
    KeepAppend(list[..j], kept[..j], [list[j]], [kept[j]]);
    assert [list[j]][1..] == [] && [kept[j]][1..] == [];
  }

  /** Removing the advance at the boundary between the part already walked and the
      rest removes exactly that position. */
  lemma RemoveAtBoundary<T>(list: seq<T>, kept: seq<bool>, j: nat)
    requires |kept| == |list| && j < |list| && Distinct(list)
    ensures RemoveFirst(Keep(list[..j], kept[..j]) + list[j..], list[j]) == Keep(list[..j], kept[..j]) + list[j + 1..]
  {
    var k := Keep(list[..j], kept[..j]);
    KeepSubset(list[..j], kept[..j]);
    assert list[j] !in list[..j] by {
      forall m | 0 <= m < j
        ensures list[..j][m] != list[j]
      {
        DistinctAt(list, m, j);
      }
    }
    Uncons(list, j);
    RemoveFirstAt(k, list[j], list[j + 1..]);
  }

  /** A suffix is its first element followed by the rest. */
  lemma Uncons<T>(s: seq<T>, j: nat)
    requires j < |s|
    ensures s[j..] == [s[j]] + s[j + 1..]
    ensures forall k: seq<T> :: k + s[j..] == k + [s[j]] + s[j + 1..]
  {
    assert s[j..] == [s[j]] + s[j + 1..];
  }

  /** How the working list `u` moves as the generator passes position `j` of the list it
      started from: the advance there sits at the generator's index; one that stays is
      passed over, a closed one is removed, and removing it leaves the next advance at
      the same index. */
  lemma WorkingListStep<T>(list: seq<T>, kept: seq<bool>, j: nat, u: seq<T>)
    requires |kept| == |list| && j < |list| && Distinct(list)
    requires u == Keep(list[..j], kept[..j]) + list[j..]
    ensures |Keep(list[..j], kept[..j])| < |u| && u[|Keep(list[..j], kept[..j])|] == list[j]
    ensures (if kept[j] then u else RemoveFirst(u, list[j])) == Keep(list[..j + 1], kept[..j + 1]) + list[j + 1..]
    ensures |Keep(list[..j + 1], kept[..j + 1])| == |Keep(list[..j], kept[..j])| + (if kept[j] then 1 else 0)
  {
    KeepPrefixStep(list, kept, j);
    var k := Keep(list[..j], kept[..j]);
    assert u[|k|] == list[j..][0];
    if kept[j] {
      assert list[j..] == [list[j]] + list[j + 1..];
      assert u == (k + [list[j]]) + list[j + 1..];
    } else {
      RemoveAtBoundary(list, kept, j);
    }
  }

  /** Once the rest of the working list is all kept, keeping the prefix keeps the whole. */
  lemma KeepRest<T>(list: seq<T>, kept: seq<bool>, j: nat)
    requires |kept| == |list| && j <= |list|
    requires forall i :: j <= i < |kept| ==> kept[i]
    ensures Keep(list[..j], kept[..j]) + list[j..] == Keep(list, kept)
  {
    assert forall i :: 0 <= i < |kept[j..]| ==> kept[j..][i] == kept[j + i];
    KeepAppend(list[..j], kept[..j], list[j..], kept[j..]);
    KeepAll(list[j..], kept[j..]);
    assert list[..j] + list[j..] == list && kept[..j] + kept[j..] == kept;
  }

  /** The states of the advances of `list`, given position by position. */
  lemma StatesAre(list: seq<Advance>, ts: seq<AdvanceState>)
    requires |ts| == |list| && forall k :: 0 <= k < |list| ==> list[k].State() == ts[k]
    ensures States(list) == ts
  {
  }

  /** In a list without repeats, an entry survives `Keep` exactly when its flag is set. */
  lemma {:induction false} KeepMember<T>(s: seq<T>, kept: seq<bool>, k: nat)
    requires |kept| == |s| && Distinct(s) && k < |s|
    ensures s[k] in Keep(s, kept) <==> kept[k]
    decreases k
  {
    KeepSubset(s[1..], kept[1..]);
    if k == 0 {
      assert s[0] !in Keep(s[1..], kept[1..]);
    } else {
      DistinctAt(s, 0, k);
      assert s[k] == s[1..][k - 1] && kept[k] == kept[1..][k - 1];
      KeepMember(s[1..], kept[1..], k - 1);
    }
  }

  /** Clearing the flag of a kept entry removes that entry from what is kept. */
  lemma {:induction false} KeepClear<T>(s: seq<T>, kept: seq<bool>, k: nat)
    requires |kept| == |s| && Distinct(s) && k < |s| && kept[k]
    ensures Keep(s, kept[k := false]) == RemoveFirst(Keep(s, kept), s[k])
    decreases k
  {
    var rest := Keep(s[1..], kept[1..]);
    var cleared := kept[k := false];
    if k == 0 {
      assert cleared[1..] == kept[1..];
      assert ([s[0]] + rest)[1..] == rest;
    } else {
      DistinctAt(s, 0, k);
      assert cleared[1..] == kept[1..][k - 1 := false] && cleared[0] == kept[0];
      assert s[k] == s[1..][k - 1];
      KeepClear(s[1..], kept[1..], k - 1);
      if kept[0] {
        assert Keep(s, kept) == [s[0]] + rest && ([s[0]] + rest)[1..] == rest;
        assert Keep(s, cleared) == [s[0]] + Keep(s[1..], cleared[1..]);
      } else {
        assert Keep(s, kept) == rest && Keep(s, cleared) == Keep(s[1..], cleared[1..]);
      }
    }
  }

  /** What is kept is never longer than the list, and only as long when it is the list. */
  lemma {:induction false} KeepFull<T>(s: seq<T>, kept: seq<bool>)
    requires |kept| == |s|
    ensures |Keep(s, kept)| <= |s|
    ensures |Keep(s, kept)| == |s| ==> Keep(s, kept) == s
    decreases |s|
  {
    if s != [] {
      KeepFull(s[1..], kept[1..]);
      if |Keep(s, kept)| == |s| {
        assert kept[0];
        assert s == [s[0]] + s[1..];
      }
    }
  }

  /** The ledger of one customer. */
  class Balance {
    var advances: seq<Advance>
    var unpaidAdvances: seq<Advance>
    var payments: seq<Payment>
    var interestPaid: real
    const dailyInterestRate: real
    var balance: real
    /** One flag per advance, in disbursement order: set while the advance is still on
        the working list. */
    ghost var listed: seq<bool>

    /** What every operation keeps: no negative buffer, rate or interest total; no
        advance twice in the ledger; the working list is the ledger's advances, in
        disbursement order, whose flag is set; no negative principal or rate on any
        advance; and every advance that has left the working list is paid off. */
    ghost predicate Valid()
      reads this, advances
    {
      && dailyInterestRate >= 0.0 && balance >= 0.0 && interestPaid >= 0.0
      && Distinct(advances) && |listed| == |advances|
      && unpaidAdvances == Keep(advances, listed)
      && Distinct(unpaidAdvances)
      && (forall a :: a in unpaidAdvances ==> a in advances)
      && (forall a :: a in advances ==> NonNegative(a.State()))
      && (forall k :: 0 <= k < |advances| && !listed[k] ==> IsClose(advances[k].State()))
    }

    /** Principal still owed on the working list, which is what `advances_balance` reports. */
    ghost function Owed(): real
      reads this, unpaidAdvances
    {
      Total(States(unpaidAdvances))
    }

    /** The working list is the ledger's advances in disbursement order with some left
        out: never longer, the whole ledger when it is as long, no advance in the ledger
        twice, an advance on it exactly when its flag is set, and every advance off it
        paid off. */
    lemma WorkingListFollowsAdvances()
      requires Valid()
      ensures |unpaidAdvances| <= |advances|
      ensures |unpaidAdvances| == |advances| ==> unpaidAdvances == advances
      ensures forall k, m :: 0 <= k < m < |advances| ==> advances[k] != advances[m]
      ensures forall k :: 0 <= k < |advances| ==> (advances[k] in unpaidAdvances <==> listed[k])
      ensures forall a :: a in advances && a !in unpaidAdvances ==> IsClose(a.State())
    {
      KeepFull(advances, listed);
      forall k, m | 0 <= k < m < |advances|
        ensures advances[k] != advances[m]
      {
        DistinctAt(advances, k, m);
      }
      forall k | 0 <= k < |advances|
        ensures advances[k] in unpaidAdvances <==> listed[k]
      {
        KeepMember(advances, listed, k);
      }
    }

    constructor (dailyInterestRate: real, balance: real := 0.0)
      requires dailyInterestRate >= 0.0 && balance >= 0.0
      ensures Valid()
      ensures advances == [] && unpaidAdvances == [] && payments == [] && interestPaid == 0.0
      ensures this.dailyInterestRate == dailyInterestRate && this.balance == balance
    {
      advances := [];
      unpaidAdvances := [];
      listed := [];
      payments := [];
      interestPaid := 0.0;
      this.dailyInterestRate := dailyInterestRate;
      this.balance := balance;
    }

    /** Disburses a new advance, first covered as far as possible by the cash buffer; the
        advance takes the ledger's rate unless it is given its own. */
    method AddAdvance(advanceDate: Day, amount: real, dailyInterestRate: Option<real>)
      requires Valid()
      requires dailyInterestRate.Some? ==> dailyInterestRate.value >= 0.0
      modifies this
      ensures Valid()
      ensures |advances| == |old(advances)| + 1
      ensures var a := advances[|advances| - 1];
        var off := OffsetAgainstBuffer(old(balance), amount);
        var rate := if dailyInterestRate.Some? then dailyInterestRate.value else this.dailyInterestRate;
        && fresh(a)
        && advances == old(advances) + [a] && unpaidAdvances == old(unpaidAdvances) + [a]
        && a.creationDate == advanceDate && a.initialAmount == amount
        && a.State() == AdvanceState(off.remaining, rate, advanceDate)
        && balance == off.buffer
      ensures payments == old(payments) && interestPaid == old(interestPaid)
    {
      var rate := this.dailyInterestRate;
      if dailyInterestRate.Some? {
        rate := dailyInterestRate.value;
      }
      var remainingAmount := amount;
      if balance > remainingAmount {
        balance := balance - remainingAmount;
        remainingAmount := 0.0;
      } else {
        remainingAmount := remainingAmount - balance;
        balance := 0.0;
      }
      var advance := new Advance(advanceDate, amount, rate, Some(remainingAmount));
      Enlist(advance);
    }

    /** Appends a new advance to the ledger and to the end of the working list. */
    method Enlist(advance: Advance)
      requires Valid() && advance !in advances && NonNegative(advance.State())
      modifies this
      ensures Valid()
      ensures advances == old(advances) + [advance] && unpaidAdvances == old(unpaidAdvances) + [advance]
      ensures payments == old(payments) && interestPaid == old(interestPaid) && balance == old(balance)
    {
      KeepSubset(advances, listed);
      DistinctAppend(unpaidAdvances, advance);
      DistinctAppend(advances, advance);
      KeepAppend(advances, listed, [advance], [true]);
      assert Keep([advance], [true]) == [advance];
      advances := advances + [advance];
      unpaidAdvances := unpaidAdvances + [advance];
      listed := listed + [true];
    }

    /** Records a payment, credits the buffer, then pays interest and capital oldest
        advance first. */
    method AddPayment(paymentDate: Day, amount: real)
      requires Valid() && amount >= 0.0
      modifies this, unpaidAdvances
      ensures Valid()
      ensures payments == old(payments) + [Payment(paymentDate, amount)]
      ensures advances == old(advances)
      ensures var o := Allocate(old(States(unpaidAdvances)), old(balance) + amount, paymentDate);
        && States(old(unpaidAdvances)) == o.states
        && unpaidAdvances == Keep(old(unpaidAdvances), o.kept)
        && balance == o.cash && interestPaid == old(interestPaid) + o.interestPaid
      ensures balance == 0.0 || Owed() == 0.0
      ensures interestPaid >= old(interestPaid)
    {
      Credit(paymentDate, amount);
      SpendBuffer(paymentDate, old(unpaidAdvances), old(States(unpaidAdvances)), old(balance) + amount, old(interestPaid));
    }

    /** Records the payment and credits its amount to the buffer (balance.py:196-197). */
    method Credit(paymentDate: Day, amount: real)
      requires Valid() && amount >= 0.0
      modifies this
      ensures Valid()
      ensures payments == old(payments) + [Payment(paymentDate, amount)] && balance == old(balance) + amount
      ensures advances == old(advances) && unpaidAdvances == old(unpaidAdvances) && interestPaid == old(interestPaid)
      ensures States(unpaidAdvances) == old(States(unpaidAdvances))
    {
      payments := payments + [Payment(paymentDate, amount)];
      balance := balance + amount;
    }

    /** The two sweeps of a payment (balance.py:198-199) over the working list `list`
        whose states are `ss`, with `cash` in the buffer. */
    method SpendBuffer(paymentDate: Day, ghost list: seq<Advance>, ghost ss: seq<AdvanceState>, ghost cash: real,
                       ghost paid0: real)
      requires Valid() && list == unpaidAdvances && ss == States(list) && cash == balance && paid0 == interestPaid
      modifies this, unpaidAdvances
      ensures Valid()
      ensures advances == old(advances) && payments == old(payments)
      ensures var o := Allocate(ss, cash, paymentDate);
        && States(list) == o.states
        && unpaidAdvances == Keep(list, o.kept)
        && balance == o.cash && interestPaid == paid0 + o.interestPaid
      ensures balance == 0.0 || Owed() == 0.0
      ensures interestPaid >= paid0
    {
      assert AllNonNegative(ss) by {
        forall k | 0 <= k < |ss|
          ensures NonNegative(ss[k])
        {
          assert list[k] in advances;
        }
      }
      ghost var o1 := Traverse(InterestPass(paymentDate), ss, cash);
      AllocateSplit(ss, cash, paymentDate);
      Sweep(InterestPass(paymentDate), list, ss, cash);
      InterestSweepKeepsPrincipal(paymentDate, ss, cash);
      KeepAll(list, o1.kept);
      Sweep(CapitalPass, list, o1.states, o1.cash);
      SettledAfterPayment(paymentDate, list, ss, cash);
      AllocateKeepsNonNegative(ss, cash, paymentDate);
    }

    /** One sweep (`__pay_interest` or `__pay_capital`) driven by the `unpaid_advances`
        generator, starting from the working list `list` whose states are `ss` and
        from the buffer `cash`: the generator's index loop, with the sweep body run at
        each advance it yields, and the closed advance removed from the working list
        when the generator resumes. */
    method Sweep(p: Pass, ghost list: seq<Advance>, ghost ss: seq<AdvanceState>, ghost cash: real)
      requires Valid() && list == unpaidAdvances && ss == States(list) && cash == balance
      modifies this, unpaidAdvances
      ensures Valid()
      ensures advances == old(advances) && payments == old(payments)
      ensures var o := Traverse(p, ss, cash);
        && States(list) == o.states
        && unpaidAdvances == Keep(list, o.kept)
        && balance == o.cash && interestPaid == old(interestPaid) + o.interestPaid
    {
      ghost var paid0 := interestPaid;
      var i, length, j := Generate(p, list, ss, cash, paid0);
      SweepDone(p, list, ss, cash, paid0, j, i, length);
    }

    /** The generator driving a sweep (balance.py:229-240 with the loops at 205-208 and
        218-223): it walks the working list by index, passing over closed advances,
        stopping the sweep on an empty buffer and removing the advances the body closes. */
    method Generate(p: Pass, ghost list: seq<Advance>, ghost ss: seq<AdvanceState>, ghost cash: real,
                    ghost paid0: real)
      returns (i: int, length: int, ghost j: nat)
      requires Valid() && list == unpaidAdvances && ss == States(list) && cash == balance
      requires paid0 == interestPaid
      modifies this, unpaidAdvances
      ensures Valid()
      ensures advances == old(advances) && payments == old(payments)
      ensures Walked(p, list, ss, cash, paid0, j, i, length) && (i >= length || balance == 0.0)
    {
      i := 0;
      length := |unpaidAdvances|;
      j := 0;
      assert list[..0] == [] && list[0..] == list;
      while i < length
        invariant Valid() && Walked(p, list, ss, cash, paid0, j, i, length)
        invariant advances == old(advances) && payments == old(payments)
        decreases |list| - j
      {
        var stop;
        i, length, stop := SweepStep(p, list, ss, cash, paid0, i, length, j);
        if stop {
          return;
        }
        j := j + 1;
      }
    }

    /** Where the generator stands before position `j` of the working list `list` it
        started from: `i` and `length` are its index and its copy of the list's length,
        the list has lost the advances the walk closed before `j`, and the buffer, the
        interest total and the advances are as the walk leaves them at `j`. */
    ghost predicate Walked(p: Pass, list: seq<Advance>, ss: seq<AdvanceState>, cash: real, paid0: real,
                           j: nat, i: int, length: int)
      reads this, list
    {
      && j <= |list| == |ss| && cash >= 0.0 && Distinct(list)
      && unpaidAdvances == Keep(list[..j], Traverse(p, ss, cash).kept[..j]) + list[j..]
      && i == |Keep(list[..j], Traverse(p, ss, cash).kept[..j])| && length == |unpaidAdvances|
      && balance == CashAt(p, ss, cash, j)
      && interestPaid == paid0 + PaidUpTo(p, ss, cash, j)
      && (forall k :: 0 <= k < j ==> list[k].State() == Traverse(p, ss, cash).states[k])
      && (forall k :: j <= k < |list| ==> list[k].State() == ss[k])
    }

    /** One turn of the generator and the sweep body: the advance at index `i` is
        passed over when closed; otherwise the sweep stops if the buffer is empty, or
        runs the body on it and removes it from the list if that closed it. */
    method SweepStep(p: Pass, ghost list: seq<Advance>, ghost ss: seq<AdvanceState>, ghost cash: real,
                     ghost paid0: real, i: int, length: int, ghost j: nat)
      returns (i': int, length': int, stop: bool)
      requires Valid() && Walked(p, list, ss, cash, paid0, j, i, length) && j < |list|
      modifies this, list[j]
      ensures Valid()
      ensures advances == old(advances) && payments == old(payments)
      ensures stop ==> balance == 0.0 && Walked(p, list, ss, cash, paid0, j, i', length')
      ensures !stop ==> Walked(p, list, ss, cash, paid0, j + 1, i', length')
    {
      ghost var o := Traverse(p, ss, cash);
      WalkAt(p, ss, cash, j);
      WorkingListStep(list, o.kept, j, unpaidAdvances);
      i', length', stop := i, length, false;
      var advance := unpaidAdvances[i];
      if !IsClose(advance.State()) {
        if balance == 0.0 {
          stop := true;
          return;
        }
        i', length' := RunBody(p, list, j, i, length);
      } else {
        i' := i' + 1;
      }
    }

    /** The sweep body on the open advance at index `i`, which is `list[j]`, with money
        in the buffer, and the generator's check on resuming: the advance leaves the
        list, and the index and length step back, if the body closed it. */
    method RunBody(p: Pass, ghost list: seq<Advance>, ghost j: nat, i: int, length: int)
      returns (i': int, length': int)
      requires Valid() && Distinct(list) && j < |list|
      requires 0 <= i < |unpaidAdvances| && unpaidAdvances[i] == list[j] && length == |unpaidAdvances|
      requires !IsClose(list[j].State()) && balance != 0.0
      modifies this, list[j]
      ensures Valid()
      ensures advances == old(advances) && payments == old(payments)
      ensures var st := Apply(p, old(list[j].State()), old(balance));
        && list[j].State() == st.after && balance == st.rest
        && interestPaid == old(interestPaid) + st.interestPaid
        && unpaidAdvances == (if IsClose(st.after) then RemoveFirst(old(unpaidAdvances), list[j]) else old(unpaidAdvances))
        && i' == (if IsClose(st.after) then i else i + 1) && length' == |unpaidAdvances|
      ensures forall k :: 0 <= k < |list| && k != j ==> list[k].State() == old(list[k].State())
    {
      i', length' := i, length;
      var advance := unpaidAdvances[i];
      forall m | 0 <= m < |list| && m != j
        ensures list[m] != advance
      {
        if m < j {
          DistinctAt(list, m, j);
        } else {
          DistinctAt(list, j, m);
        }
      }
      assert advance in advances;
      ghost var at :| 0 <= at < |advances| && advances[at] == advance;
      KeepMember(advances, listed, at);
      VisitListed(p, advance, at);
      if IsClose(advance.State()) {
        Unlist(advance, at);
        i' := i' - 1;
        length' := length' - 1;
      }
      i' := i' + 1;
      forall m | 0 <= m < |list| && m != j
        ensures list[m].State() == old(list[m].State())
      {
        assert list[m] != advance;
      }
    }

    /** Visiting an advance that is still on the working list keeps the ledger valid. */
    method VisitListed(p: Pass, advance: Advance, ghost at: nat)
      requires Valid() && at < |advances| && advances[at] == advance && listed[at]
      modifies this, advance
      ensures Valid()
      ensures var st := Apply(p, old(advance.State()), old(balance));
        advance.State() == st.after && balance == st.rest && interestPaid == old(interestPaid) + st.interestPaid
      ensures advances == old(advances) && unpaidAdvances == old(unpaidAdvances) && payments == old(payments)
      ensures listed == old(listed)
    {
      Visit(p, advance);
      forall k | 0 <= k < |advances|
        ensures NonNegative(advances[k].State())
        ensures !listed[k] ==> IsClose(advances[k].State())
      {
        if k != at {
          if k < at {
            DistinctAt(advances, k, at);
          } else {
            DistinctAt(advances, at, k);
          }
          assert advances[k].State() == old(advances[k].State());
        }
      }
    }

    /** `self.unpaid_advances.remove(advance)` for a paid-off advance: it leaves the
        working list and its flag is cleared. */
    method Unlist(advance: Advance, ghost at: nat)
      requires Valid() && at < |advances| && advances[at] == advance && listed[at]
      requires IsClose(advance.State())
      modifies this
      ensures Valid()
      ensures unpaidAdvances == RemoveFirst(old(unpaidAdvances), advance)
      ensures |unpaidAdvances| == |old(unpaidAdvances)| - 1
      ensures advances == old(advances) && payments == old(payments)
      ensures balance == old(balance) && interestPaid == old(interestPaid)
    {
      KeepMember(advances, listed, at);
      RemoveFirstDistinct(unpaidAdvances, advance);
      KeepClear(advances, listed, at);
      unpaidAdvances := RemoveFirst(unpaidAdvances, advance);
      listed := listed[at := false];
    }

    /** When the generator has run off the end of the list, or the sweep stopped on an
        empty buffer, the list, the buffer, the interest total and the advances are
        those of the whole walk. */
    lemma SweepDone(p: Pass, list: seq<Advance>, ss: seq<AdvanceState>, cash: real, paid0: real,
                    j: nat, i: int, length: int)
      requires Walked(p, list, ss, cash, paid0, j, i, length)
      requires i >= length || balance == 0.0
      ensures var o := Traverse(p, ss, cash);
        && States(list) == o.states
        && unpaidAdvances == Keep(list, o.kept)
        && balance == o.cash && interestPaid == paid0 + o.interestPaid
    {
      var o := Traverse(p, ss, cash);
      WalkEndCash(p, ss, cash);
      WalkEndPaid(p, ss, cash);
      if j < |list| {
        forall m | j <= m < |list|
          ensures o.states[m] == ss[m] && o.kept[m]
        {
          DrainedFrom(p, ss, cash, j, m);
          WalkAt(p, ss, cash, m);
        }
        DrainedFrom(p, ss, cash, j, |list|);
      }
      KeepRest(list, o.kept, j);
      StatesAre(list, o.states);
    }

    /** After a payment (the postcondition of `AddPayment`, with `list` and `ss` the
        working list and its states before it) the buffer is empty or nothing is owed. */
    lemma SettledAfterPayment(paymentDate: Day, list: seq<Advance>, ss: seq<AdvanceState>, cash: real)
      requires cash >= 0.0 && AllNonNegative(ss) && |list| == |ss|
      requires var o := Allocate(ss, cash, paymentDate);
        States(list) == o.states && unpaidAdvances == Keep(list, o.kept) && balance == o.cash
      ensures balance == 0.0 || Owed() == 0.0
    {
      var o := Allocate(ss, cash, paymentDate);
      StatesKeep(list, o.kept);
      PaymentSettles(ss, cash, paymentDate);
    }

    /** The body of either sweep for one advance the generator yielded: pay its interest
        as of `paymentDate` and collect it, or pay down its principal. */
    method Visit(p: Pass, advance: Advance)
      requires balance >= 0.0
      modifies this, advance
      ensures var st := Apply(p, old(advance.State()), old(balance));
        advance.State() == st.after && balance == st.rest && interestPaid == old(interestPaid) + st.interestPaid
      ensures advances == old(advances) && unpaidAdvances == old(unpaidAdvances) && payments == old(payments)
      ensures listed == old(listed)
    {
      match p {
        case InterestPass(d) =>
          var rest, paid := advance.PayInterest(balance, d);
          balance := rest;
          interestPaid := interestPaid + paid;
        case CapitalPass =>
          balance := advance.PayCapital(balance);
      }
    }

    /** What the customer owes: the principal of the advances the generator yields. */
    method AdvancesBalance() returns (total: real)
      ensures total == Owed()
    {
      total := 0.0;
      var i := 0;
      while i < |unpaidAdvances|
        invariant 0 <= i <= |unpaidAdvances|
        invariant total + Total(States(unpaidAdvances)[i..]) == Owed()
      {
        assert States(unpaidAdvances)[i..][1..] == States(unpaidAdvances)[i + 1..];
        var advance := unpaidAdvances[i];
        if !IsClose(advance.State()) {
          total := total + advance.remainingAmount;
        }
        i := i + 1;
      }
    }

    /** The interest owed up to and including `toDate`: each yielded advance's accrual as
        of the next day. */
    method InterestPayableBalance(toDate: Day) returns (total: real)
      ensures total == Accrued(States(unpaidAdvances), toDate + 1)
    {
      var nextDay := toDate + 1;
      total := 0.0;
      var i := 0;
      while i < |unpaidAdvances|
        invariant 0 <= i <= |unpaidAdvances|
        invariant total + Accrued(States(unpaidAdvances)[i..], nextDay) == Accrued(States(unpaidAdvances), nextDay)
      {
        assert States(unpaidAdvances)[i..][1..] == States(unpaidAdvances)[i + 1..];
        var advance := unpaidAdvances[i];
        if !IsClose(advance.State()) {
          total := total + InterestPayable(advance.State(), nextDay);
        }
        i := i + 1;
      }
    }
  }
}

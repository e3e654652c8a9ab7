# Cash-advance ledger of one customer

This project models `balance.py`, the ledger of one customer who draws cash
advances and repays them:

- An **advance** owes principal (`remaining_amount`). It accrues interest every whole
  day at `remaining_amount × daily_interest_rate`, counted from
  `last_interest_payment_date`.
  - `pay_capital` lowers the principal, clamps it at zero and returns what was not
    needed.
  - `pay_interest` settles the accrued interest. A payment that falls short buys only
    whole days, `floor(amount / interest_by_day)` of them, and moves the interest
    clock forward by that many days.
- The **ledger** (`Balance`) keeps:
  - every advance in `advances`;
  - a working list `unpaidAdvances` that the sweeps walk;
  - the `payments` received;
  - a cash buffer `balance`;
  - the running `interestPaid`.
- `add_advance` first covers the new advance from the buffer.
- `add_payment` credits the buffer and then runs two sweeps over the working list,
  oldest advance first: an interest sweep and then a capital sweep.
- Both sweeps are driven by the `unpaid_advances` generator, which walks the working
  list by index:
  - it passes over advances that are already closed;
  - the sweep stops when the buffer is empty;
  - an advance that the sweep body closed is removed from the list when the generator
    resumes, and the index steps back so that no advance is skipped.

The model has three modules.

- `Accrual` (`accrual.dfy`) is the advance's arithmetic, stated on values.
  - `AdvanceState(remaining, rate, last)` is the part of an advance that payments read
    and change.
  - `InterestByDay`, `DaysFromLastInterestPayment`, `InterestPayable`, `PayCapital`
    and `PayInterest` are functions. Their contracts state what the source promises.
- `Allocation` (`allocation.dfy`) specifies a sweep on values.
  - `Traverse` is one walk of the generator together with the sweep body. For each
    entry of the working list it gives:
    - the new state;
    - whether the entry stays in the list;
    - whether the body ran on it.

    It also gives the buffer left over and the interest collected.
  - `Allocate` is a whole payment: the interest sweep followed by the capital sweep.
  - The lemmas prove what the source promises of these walks: conservation of money,
    the eviction rule, oldest-first order, and that a sweep stops only on an empty
    buffer.
- `Ledger` (`ledger.dfy`) is the imperative model.
  - `Advance` and `Balance` are classes whose fields the methods update in place.
  - The generator is a `while` loop over the working list. It uses the same index `i`
    and length copy `length` as the source, and removes the closed advance from the
    list in place.
  - Each ledger method is proved against the value-level specification. `AddPayment`
    leaves the advances, the working list, the buffer and the interest total exactly
    as `Allocate` says.
  - `Valid()` is the ledger invariant, and every operation keeps it. A ghost flag per
    advance, `listed`, records whether the advance is still on the working list. The
    working list is always the ledger's advances, in disbursement order, whose flag is
    set, and no advance is in the ledger twice.

Dates are day numbers: `timedelta(days = n)` is `+ n`, and the difference of two dates
is a subtraction. Money and rates are exact reals.

Where the code differs from what its names and docstrings suggest, the model follows
the code:

- A payment dated before an advance's `last_interest_payment_date` sets the clock back
  to the payment date (balance.py:97). The date is therefore not monotone, and the
  interest for the days in between becomes payable again (`EarlierPaymentRewindsClock`).
  A payment dated on or after an advance's clock never moves it back
  (`ChronologicalPaymentKeepsClock`). Payments in date order are not enough: a payment
  dated before an advance was created still sets that advance's clock back to the
  payment date.
- A payment does not settle all interest before it repays principal. An interest payment
  that falls short buys only whole days (balance.py:99-104), and the part of a day it
  cannot buy stays in the buffer. The interest sweep passes that remainder on to the
  younger advances' interest. The capital sweep then spends what is left on the oldest
  advance's principal, even though that advance still owes interest. For example, take
  advances of 100 and 10 at 1% with their clocks on day 0, and a payment of 1.5 on
  day 2. The older advance buys one day (1.0), the younger one buys two days (0.2), and
  the last 0.3 goes to the older advance's principal, which still owes a day of interest
  (`PartialInterestSweep`, `InterestLeftBehindExample`).
- An advance that is already closed when the generator reaches it is passed over but
  stays in the working list (balance.py:233). An example is an advance that the buffer
  fully covered in `add_advance`. Only an advance that the sweep body closed is removed
  (`EvictionRule`).
- `advances_balance` and `interest_payable_balance` never remove anything from the
  working list. The advance they are handed is still open when the generator resumes,
  so the removal at balance.py:236-239 never fires. They are modelled as read-only loops.
- The working list may therefore hold closed advances. `Valid()` promises that every
  advance whose flag is cleared is closed, not that every advance on the list is open.

## Model

| member | source | states |
|---|---|---|
| Accrual.IsClose | balance.py:106-107 | an advance is closed exactly when no principal remains |
| Accrual.InterestByDay | balance.py:53-54 | one day's interest is non-negative for an advance with no negative principal or rate, and zero for a closed advance |
| Accrual.DaysFromLastInterestPayment | balance.py:33-42 | no days when the date is not after the interest clock; otherwise exactly the days from the clock to the date |
| Accrual.InterestPayable | balance.py:44-51 | accrued interest is non-negative, and zero for a closed advance or a date not after the clock |
| Accrual.AccrualSplits | balance.py:44-54 | accrual over a period is the accrual up to any date inside it plus the accrual from that date on |
| Accrual.InclusiveCutoff | balance.py:260-262 | accruing up to the next day adds exactly the day `to` itself: (to − last + 1) days of interest |
| Accrual.TimesIsProduct | balance.py:51 | accrual as a sum of whole days equals days × interest_by_day |
| Accrual.FloorDivision | balance.py:101 | floor(amount / interest_by_day) whole days fit in the amount, and less than one more day's interest is left |
| Accrual.PayCapital | balance.py:66-71 | principal repaid plus returned rest is the amount; both results are non-negative; the rest is zero or the advance is closed; rate and clock unchanged |
| Accrual.PayCapitalClamps | balance.py:66-71 | the principal left is max(0, remaining − amount) and the rest is max(0, amount − remaining) |
| Accrual.PayInterest | balance.py:95-104 | rest + paid is the amount; principal unchanged; paid interest leaves what is payable; enough money settles all interest and sets the clock to the payment date; too little buys whole days, keeps the clock before the payment date and leaves less than one day's interest |
| Accrual.ChronologicalPaymentKeepsClock | balance.py:95-104 | a payment not dated before the clock does not move the clock back, and leaves it at most at the payment date |
| Accrual.EarlierPaymentRewindsClock | balance.py:96-98 | a payment dated before the clock sets it back, and interest settled for the days in between becomes payable again |
| Accrual.LessThanADayBuysNothing | balance.py:99-104 | an amount below one day's interest pays nothing and leaves the advance as it was |
| Accrual.PartialDayExample | balance.py:99-104 | 2.5 against four days of 1.0 pays two days and returns 0.5 |
| Allocation.Apply | balance.py:205-223 | the sweep body: what the buffer gives up is interest collected plus principal repaid; the interest pass keeps principal; the capital pass collects no interest and ends with an empty buffer or a closed advance |
| Allocation.Traverse | balance.py:229-240 | one walk of the generator and the sweep body: a closed advance is passed over and stays, an empty buffer passes over the rest, an advance the body closed leaves the list; one state, flag and visit mark per advance, and a non-negative buffer left |
| Allocation.HeadStep | balance.py:206-208 | an advance that is closed, or reached with an empty buffer, is left unchanged together with the buffer |
| Allocation.SweepConserves | balance.py:205-208 | over a whole sweep, the buffer drops by the interest collected plus the principal repaid |
| Allocation.DrainedSweepIsNoOp | balance.py:218-220 | a sweep that starts with an empty buffer changes, removes and visits nothing |
| Allocation.EvictionRule | balance.py:229-240 | the body runs only on advances open when reached; the others are unchanged and stay; an advance leaves the list exactly when the body ran on it and closed it |
| Allocation.TraverseAt | balance.py:229-240 | the advance at position k gets the step for the buffer left when the walk reaches k, and stays unless that step closed it |
| Allocation.VisitedAt | balance.py:231-234 | the body runs at position k exactly when the advance is open and the buffer is not yet empty |
| Allocation.WalkEndCash | balance.py:205-208 | the sweep ends with the buffer the walk has at the end of the list |
| Allocation.WalkEndPaid | balance.py:218-223 | the sweep's interest total is what the walk has collected at the end of the list |
| Allocation.DrainedFrom | balance.py:206-207 | once the buffer is empty, the rest of the walk moves no money |
| Allocation.NoOpenAdvanceSkipped | balance.py:229-240 | advances are taken in list order: before any advance the body ran on, it ran on every advance that was open |
| Allocation.CapitalOldestFirst | balance.py:201-208 | a later advance receives capital only after every earlier open advance is paid off and removed |
| Allocation.CapitalSweepClears | balance.py:205-208 | the capital sweep ends with an empty buffer or with every advance closed |
| Allocation.InterestSweepSpendsOnInterest | balance.py:218-223 | the interest sweep gives up from the buffer exactly the interest it collects |
| Allocation.InterestSweepKeepsPrincipal | balance.py:218-223 | the interest sweep changes no principal or rate and removes no advance |
| Allocation.SweepKeepsNonNegative | balance.py:205-208 | on advances with no negative principal or rate, a sweep keeps them so, collects non-negative interest and never grows the buffer |
| Allocation.Allocate | balance.py:197-199 | a payment conserves money; it ends with an empty buffer or every advance closed; an advance leaves the list exactly when it was open and the payment closed it; non-negativity is kept; all the interest it collects is collected by the interest sweep; a closed advance never reopens |
| Allocation.CapitalSweepCollectsNoInterest | balance.py:201-208 | the capital sweep collects no interest over the whole list |
| Allocation.AllocateKeepsNonNegative | balance.py:197-199 | both sweeps together keep advances non-negative and collect non-negative interest |
| Allocation.PaymentSettles | balance.py:197-208 | after a payment the buffer is empty or the advances left on the working list owe nothing |
| Allocation.NothingOwedIffAllClosed | balance.py:248 | with no negative principal, the total owed is non-negative, and zero exactly when every advance is closed |
| Allocation.KeepTotal | balance.py:236-237 | removing only closed advances from the list leaves the principal owed unchanged |
| Allocation.OffsetAgainstBuffer | balance.py:177-183 | the buffer drops by the part of the new advance it covers; the buffer is used up or the advance fully covered; both stay within bounds |
| Allocation.OffsetIsCapitalPayment | balance.py:177-183 | covering a new advance from the buffer is a capital payment of the whole buffer on it |
| Allocation.OffsetExample | balance.py:177-183 | a buffer of 200 against an advance of 500 leaves 300 to repay and no buffer |
| Allocation.TwoAdvanceInterestSweep | balance.py:218-223 | one day's interest on advances of 100 and 50 at 1% collects 1.0 and 0.5 from a payment of 60 |
| Allocation.TwoAdvancePaymentExample | balance.py:196-208 | the remaining 58.5 of that payment goes to the older advance only |
| Allocation.PartialInterestSweep | balance.py:99-104 | 1.5 on day 2 against advances of 100 and 10 at 1% buys one day of the older advance's interest and two of the younger's, leaving 0.3 in the buffer |
| Allocation.InterestLeftBehindExample | balance.py:196-223 | after that payment the older advance's principal is 99.7, yet it still owes interest on day 2 |
| Allocation.ConsecutiveClosuresExample | balance.py:229-240 | advances of 4 and 5 closed in a row both leave the list, and the third still receives the rest of 12 |
| Ledger.Advance.constructor | balance.py:17-31 | the clock starts on the creation date; the amount to repay is the whole amount unless one is given |
| Ledger.Advance.PayCapital | balance.py:56-71 | the advance's new fields and the returned rest are those of `Accrual.PayCapital` |
| Ledger.Advance.PayInterest | balance.py:73-104 | the advance's new fields, the rest and the interest paid are those of `Accrual.PayInterest` |
| Ledger.RemoveFirst | balance.py:237 | `list.remove(x)`: a list without x is returned unchanged, and a list holding x loses exactly one entry |
| Ledger.RemoveFirstAt | balance.py:237 | `list.remove(x)` removes the first occurrence: with x absent from a, removing x from a + [x] + b gives a + b |
| Ledger.RemoveFirstDistinct | balance.py:237 | removing from a list without repeats keeps it without repeats, holds everything else and shortens it by one |
| Ledger.RemoveAtBoundary | balance.py:236-239 | removing the advance at the generator's position removes exactly that position of the working list |
| Ledger.KeepClear | balance.py:236-237 | in a list without repeats, clearing the flag of an entry on the working list is `list.remove` of that entry |
| Ledger.WorkingListStep | balance.py:231-240 | the advance at the generator's index is the next one of the starting list; a kept one is passed over, a closed one is removed, and the rewound index then names the next advance |
| Ledger.Balance.WorkingListFollowsAdvances | balance.py:185-186 | the working list is never longer than the advances, and is the advances when it is as long; no advance is in the ledger twice; an advance is on the list exactly when its flag is set; an advance off the list is paid off |
| Ledger.Balance.constructor | balance.py:148-161 | a ledger starts with no advances or payments, no interest paid, and the given rate and buffer |
| Ledger.Balance.AddAdvance | balance.py:163-186 | the new advance is covered from the buffer as `OffsetAgainstBuffer` says, takes the ledger's rate unless given one, and is appended to both lists; nothing else changes and the invariant holds |
| Ledger.Balance.Enlist | balance.py:185-186 | the new advance goes at the end of the advances and of the working list, with its flag set; the invariant holds |
| Ledger.Balance.AddPayment | balance.py:188-199 | the payment is recorded; the advances, the working list, the buffer and the interest total become those `Allocate` gives for the old working list and buffer plus the amount; afterwards the buffer is empty or the working list owes no principal, and the interest total has not decreased |
| Ledger.Balance.Credit | balance.py:196-197 | the payment is appended and its amount credited to the buffer; the advances, their states, the working list and the interest total are unchanged; the invariant holds |
| Ledger.Balance.SpendBuffer | balance.py:198-199 | the interest sweep and then the capital sweep leave the ledger as `Allocate` says, with an empty buffer or nothing owed, and an interest total that has not decreased |
| Ledger.Balance.Sweep | balance.py:201-223 | one sweep leaves the advances, the working list, the buffer and the interest total as `Traverse` says |
| Ledger.Balance.Generate | balance.py:229-240 | the generator loop ends with the list run through or the buffer empty, having walked exactly as `Traverse` does up to where it stopped |
| Ledger.Balance.SweepStep | balance.py:231-240 | one turn of the generator moves the walk one position of the starting list on, or stops on an empty buffer |
| Ledger.Balance.RunBody | balance.py:233-240 | the body runs on the yielded advance; if the body closed it, the advance leaves the list and the index and length step back; no other advance changes |
| Ledger.Balance.VisitListed | balance.py:233-234 | the body run on an advance still on the working list gives it the state `Apply` gives and keeps the invariant |
| Ledger.Balance.Unlist | balance.py:236-237 | a paid-off advance leaves the working list, which loses exactly that entry, and its flag is cleared; the invariant holds |
| Ledger.Balance.SweepDone | balance.py:205-207 | stopping on an empty buffer gives the same ledger as walking the rest of the list |
| Ledger.Balance.Visit | balance.py:205-223 | the body for one yielded advance: its new state, the buffer and the interest total are those `Apply` gives |
| Ledger.Balance.SettledAfterPayment | balance.py:197-208 | after `AddPayment` the buffer is empty or the ledger owes no principal |
| Ledger.Balance.AdvancesBalance | balance.py:242-248 | the sum over the yielded advances is the principal owed on the working list |
| Ledger.Balance.InterestPayableBalance | balance.py:250-262 | the sum over the yielded advances is the interest accrued on the working list up to and including `to_date` |

## Left out

- Dates are day numbers. Parsing and printing ISO strings (`date.fromisoformat`,
  `isoformat`, balance.py:26, 39, 97, 261) is not modelled.
- Money and rates are exact reals. Python float rounding is not modelled.
- The default `payment_date` of `__pay_interest` is `datetime.now()`, frozen when the
  module loads (balance.py:210). The model drops it, because it reads the clock and
  `add_payment` always passes the date.
- `yield` is not modelled as a coroutine. The generator is the index loop it runs, with
  the sweep body at each yield, in the order the source interleaves them.
- `Payment` is a record that `add_payment` appends (balance.py:110-120). It has no
  behaviour to model.
- Ledger.Balance.AddPayment: requires a non-negative amount, which the source does not
  check. A negative payment could drive the buffer below zero, which the ledger invariant
  and the sweeps rule out.
- Ledger.Balance.constructor: requires a non-negative rate and buffer, which the source
  does not check. The ledger invariant rests on them.
- Ledger.Balance.AddAdvance: requires a non-negative rate when one is given, which the
  source does not check. The ledger invariant rests on it.
- Accrual.PayInterest: requires a non-negative amount. For an advance with no negative
  rate, a negative amount is always below the interest payable, so the source takes the
  branch at balance.py:99. With a positive `interest_by_day`, nothing is raised: the
  floor at balance.py:101 is negative, balance.py:102 moves the interest clock back, and
  balance.py:104 reports negative interest paid. With a zero `interest_by_day`, the
  division at balance.py:101 raises `ZeroDivisionError`. Neither case is modelled.
- Ledger.Advance.PayInterest: requires a non-negative amount, for the same reasons as
  `Accrual.PayInterest`.
- `Advance.interest_payable_balance`, `interest_by_day`, `is_close` and
  `__days_from_last_interest_payment` are not methods of `Ledger.Advance`. They are
  functions of its state, `Advance.State()`, in `Accrual`.
- `Advance.initial_amount` and `creation_date` are recorded and never read again.
- Concurrency: none is present.

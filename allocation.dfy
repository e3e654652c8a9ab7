/**
  How a ledger spends its cash buffer on the advances of its working list,
  stated on values.

  A payment runs two sweeps over the working list, oldest advance first: an
  interest sweep (`__pay_interest`) and then a capital sweep (`__pay_capital`).
  Each sweep walks the list with the `unpaid_advances` generator: an advance
  that is already closed when reached is skipped and stays in the list, an
  open one is handed to the sweep body, a sweep whose buffer is empty stops,
  and an advance the body closed is removed from the list when the generator
  resumes. `Traverse` is that walk, generator and body together.
 */
module Allocation {
  import opened Accrual

  /** Which of the two sweeps is running; the interest sweep carries the payment date. */
  datatype Pass = InterestPass(paymentDate: Day) | CapitalPass

  /** What the sweep body did to one advance: its new state, the cash left in
      the buffer and the interest collected. */
  datatype Step = Step(after: AdvanceState, rest: real, interestPaid: real)

  /** The body of one sweep for one yielded advance (balance.py:221-223 and 208). */
  function Apply(p: Pass, s: AdvanceState, cash: real): (r: Step)
    requires cash >= 0.0
    ensures r.rest >= 0.0 && r.after.rate == s.rate
    // what the buffer gives up is collected as interest or taken off principal
    ensures cash - r.rest == r.interestPaid + (s.remaining - r.after.remaining)
    ensures p.InterestPass? ==> r.after.remaining == s.remaining
    ensures p.CapitalPass? ==>
      r.interestPaid == 0.0 && r.after.last == s.last && (r.rest == 0.0 || IsClose(r.after))
    ensures NonNegative(s) ==> NonNegative(r.after) && r.interestPaid >= 0.0 && r.rest <= cash
  {
    match p
    case InterestPass(d) =>
      var o := PayInterest(s, cash, d);
      Step(o.after, o.rest, o.paid)
    case CapitalPass =>
      var o := PayCapital(s, cash);
      Step(o.after, o.rest, 0.0)
  }

  /** The result of one sweep over a working list: the new state of every advance,
      which of them stay in the list, which of them the body was run on, the cash
      left in the buffer and the interest collected. */
  datatype Outcome = Outcome(
    states: seq<AdvanceState>, kept: seq<bool>, visited: seq<bool>, cash: real, interestPaid: real)

  /** Outstanding principal of a list of advances. */
  function Total(ss: seq<AdvanceState>): real
  {
    if ss == [] then 0.0 else ss[0].remaining + Total(ss[1..])
  }

  /** Interest payable on a list of advances as of `to`. */
  function Accrued(ss: seq<AdvanceState>, to: Day): real
  {
    if ss == [] then 0.0 else InterestPayable(ss[0], to) + Accrued(ss[1..], to)
  }

  predicate AllNonNegative(ss: seq<AdvanceState>)
  {
    forall i :: 0 <= i < |ss| ==> NonNegative(ss[i])
  }

  /** What the walk does at one advance: an advance that is already closed, or any
      advance once the buffer is empty, is passed over; an open one gets the sweep
      body. */
  function HeadStep(p: Pass, s: AdvanceState, cash: real): (r: Step)
    requires cash >= 0.0
    ensures r.rest >= 0.0
    ensures IsClose(s) || cash == 0.0 ==> r == Step(s, cash, 0.0)
  {
    if IsClose(s) || cash == 0.0 then Step(s, cash, 0.0) else Apply(p, s, cash)
  }

  /** One sweep over the working list `ss` with `cash` in the buffer (balance.py:205-208,
      218-223 and 229-240). Once the buffer is empty the source leaves the loop; walking
      on with an empty buffer passes over every remaining advance, which comes to the
      same. */
  function Traverse(p: Pass, ss: seq<AdvanceState>, cash: real): (o: Outcome)
    requires cash >= 0.0
    ensures |o.states| == |o.kept| == |o.visited| == |ss|
    ensures o.cash >= 0.0
    decreases |ss|
  {
    if ss == [] then Outcome([], [], [], cash, 0.0)
    else
      var st := HeadStep(p, ss[0], cash);
      var o := Traverse(p, ss[1..], st.rest);
      Outcome([st.after] + o.states, [IsClose(ss[0]) || !IsClose(st.after)] + o.kept,
              [!IsClose(ss[0]) && cash != 0.0] + o.visited, o.cash, st.interestPaid + o.interestPaid)
  }

  /** No money is created or lost: the buffer drops by the interest collected plus the
      principal repaid. */
  lemma {:induction false} SweepConserves(p: Pass, ss: seq<AdvanceState>, cash: real)
    requires cash >= 0.0
    ensures var o := Traverse(p, ss, cash);
      cash - o.cash == o.interestPaid + (Total(ss) - Total(o.states))
    decreases |ss|
  {
    if ss != [] {
      var st := HeadStep(p, ss[0], cash);
      SweepConserves(p, ss[1..], st.rest);
      var t := Traverse(p, ss[1..], st.rest);
      assert ([st.after] + t.states)[1..] == t.states;
    }
  }

  /** A sweep that starts with an empty buffer changes nothing, removes nothing and
      runs the body on no advance. */
  lemma {:induction false} DrainedSweepIsNoOp(p: Pass, ss: seq<AdvanceState>)
    ensures var o := Traverse(p, ss, 0.0);
      && o.states == ss && o.cash == 0.0 && o.interestPaid == 0.0
      && forall i :: 0 <= i < |ss| ==> o.kept[i] && !o.visited[i]
    decreases |ss|
  {
    if ss != [] {
      DrainedSweepIsNoOp(p, ss[1..]);
      var t := Traverse(p, ss[1..], 0.0);
      assert [ss[0]] + ss[1..] == ss;
      assert forall i :: 1 <= i < |ss| ==> Traverse(p, ss, 0.0).kept[i] == t.kept[i - 1];
      assert forall i :: 1 <= i < |ss| ==> Traverse(p, ss, 0.0).visited[i] == t.visited[i - 1];
    }
  }

  /** The body runs only on advances that are open when reached; every other advance
      is left as it was and stays in the list; an advance leaves the list exactly
      when the body ran on it and closed it. */
  lemma {:induction false} EvictionRule(p: Pass, ss: seq<AdvanceState>, cash: real)
    requires cash >= 0.0
    ensures var o := Traverse(p, ss, cash);
      forall i :: 0 <= i < |ss| ==>
        && (o.visited[i] ==> !IsClose(ss[i]))
        && (!o.visited[i] ==> o.states[i] == ss[i] && o.kept[i])
        && (!o.kept[i] <==> o.visited[i] && IsClose(o.states[i]))
  {
    forall i | 0 <= i < |ss|
      ensures var o := Traverse(p, ss, cash);
        && (o.visited[i] ==> !IsClose(ss[i]))
        && (!o.visited[i] ==> o.states[i] == ss[i] && o.kept[i])
        && (!o.kept[i] <==> o.visited[i] && IsClose(o.states[i]))
    {
      TraverseAt(p, ss, cash, i);
      VisitedAt(p, ss, cash, i);
    }
  }

  /** The buffer as the walk reaches position `j` of `ss`. */
  function CashAt(p: Pass, ss: seq<AdvanceState>, cash: real, j: nat): (r: real)
    requires cash >= 0.0 && j <= |ss|
    ensures r >= 0.0
    decreases j
  {
    if j == 0 then cash else HeadStep(p, ss[j - 1], CashAt(p, ss, cash, j - 1)).rest
  }

  /** The interest collected before the walk reaches position `j` of `ss`. */
  function PaidUpTo(p: Pass, ss: seq<AdvanceState>, cash: real, j: nat): real
    requires cash >= 0.0 && j <= |ss|
    decreases j
  {
    if j == 0 then 0.0 else PaidUpTo(p, ss, cash, j - 1) + HeadStep(p, ss[j - 1], CashAt(p, ss, cash, j - 1)).interestPaid
  }

  /** Walking `ss` up to `k + 1` is the step at its first advance followed by walking
      the rest up to `k`. */
  lemma {:induction false} WalkShift(p: Pass, ss: seq<AdvanceState>, cash: real, k: nat)
    requires cash >= 0.0 && k < |ss|
    ensures var st := HeadStep(p, ss[0], cash);
      && CashAt(p, ss, cash, k + 1) == CashAt(p, ss[1..], st.rest, k)
      && PaidUpTo(p, ss, cash, k + 1) == st.interestPaid + PaidUpTo(p, ss[1..], st.rest, k)
    decreases k
  {
    if k > 0 {
      WalkShift(p, ss, cash, k - 1);
      assert ss[k] == ss[1..][k - 1];
    }
  }

  /** The walk at position `k`: the advance there gets the step for the buffer left
      when the walk reaches it. */
  lemma {:induction false} TraverseAt(p: Pass, ss: seq<AdvanceState>, cash: real, k: nat)
    requires cash >= 0.0 && k < |ss|
    ensures Traverse(p, ss, cash).states[k] == HeadStep(p, ss[k], CashAt(p, ss, cash, k)).after
    ensures Traverse(p, ss, cash).kept[k] == (IsClose(ss[k]) || !IsClose(HeadStep(p, ss[k], CashAt(p, ss, cash, k)).after))
    decreases k
  {
    if k > 0 {
      var st := HeadStep(p, ss[0], cash);
      TraverseAt(p, ss[1..], st.rest, k - 1);
      WalkShift(p, ss, cash, k - 1);
      assert ss[k] == ss[1..][k - 1];
    }
  }

  /** The walk runs the body on the advance at position `k` exactly when it is open and
      the buffer is not yet empty. */
  lemma {:induction false} VisitedAt(p: Pass, ss: seq<AdvanceState>, cash: real, k: nat)
    requires cash >= 0.0 && k < |ss|
    ensures Traverse(p, ss, cash).visited[k] == (!IsClose(ss[k]) && CashAt(p, ss, cash, k) != 0.0)
    decreases k
  {
    if k > 0 {
      var st := HeadStep(p, ss[0], cash);
      VisitedAt(p, ss[1..], st.rest, k - 1);
      WalkShift(p, ss, cash, k - 1);
      assert ss[k] == ss[1..][k - 1];
    }
  }

  /** The walk ends with the buffer it has reached at the end of the list. */
  lemma {:induction false} WalkEndCash(p: Pass, ss: seq<AdvanceState>, cash: real)
    requires cash >= 0.0
    ensures Traverse(p, ss, cash).cash == CashAt(p, ss, cash, |ss|)
    decreases |ss|
  {
    if ss != [] {
      var st := HeadStep(p, ss[0], cash);
      WalkEndCash(p, ss[1..], st.rest);
      WalkShift(p, ss, cash, |ss| - 1);
    }
  }

  /** The walk ends with the interest total it has reached at the end of the list. */
  lemma {:induction false} WalkEndPaid(p: Pass, ss: seq<AdvanceState>, cash: real)
    requires cash >= 0.0
    ensures Traverse(p, ss, cash).interestPaid == PaidUpTo(p, ss, cash, |ss|)
    decreases |ss|
  {
    if ss != [] {
      var st := HeadStep(p, ss[0], cash);
      WalkEndPaid(p, ss[1..], st.rest);
      WalkShift(p, ss, cash, |ss| - 1);
      assert Traverse(p, ss, cash).interestPaid == st.interestPaid + Traverse(p, ss[1..], st.rest).interestPaid;
    }
  }

  /** The walk at position `j`: the advance there gets the step for the buffer left
      when the walk reaches it, which leaves the buffer and the interest total that the
      walk has at `j + 1`. */
  lemma WalkAt(p: Pass, ss: seq<AdvanceState>, cash: real, j: nat)
    requires cash >= 0.0 && j < |ss|
    ensures var st := HeadStep(p, ss[j], CashAt(p, ss, cash, j));
      && Traverse(p, ss, cash).states[j] == st.after
      && Traverse(p, ss, cash).kept[j] == (IsClose(ss[j]) || !IsClose(st.after))
      && CashAt(p, ss, cash, j + 1) == st.rest
      && PaidUpTo(p, ss, cash, j + 1) == PaidUpTo(p, ss, cash, j) + st.interestPaid
  {
    TraverseAt(p, ss, cash, j);
  }

  /** Once the buffer is empty the rest of the walk moves no money. */
  lemma {:induction false} DrainedFrom(p: Pass, ss: seq<AdvanceState>, cash: real, j: nat, k: nat)
    requires cash >= 0.0 && j <= k <= |ss| && CashAt(p, ss, cash, j) == 0.0
    ensures CashAt(p, ss, cash, k) == 0.0 && PaidUpTo(p, ss, cash, k) == PaidUpTo(p, ss, cash, j)
    decreases k
  {
    if k > j {
      DrainedFrom(p, ss, cash, j, k - 1);
    }
  }

  /** Advances are taken in list order and none is skipped: before an advance the
      body ran on, the body ran on every advance that was open. */
  lemma {:induction false} NoOpenAdvanceSkipped(p: Pass, ss: seq<AdvanceState>, cash: real)
    requires cash >= 0.0
    ensures forall i, j :: 0 <= i < j < |ss| && Traverse(p, ss, cash).visited[j] && !IsClose(ss[i]) ==>
      Traverse(p, ss, cash).visited[i]
    decreases |ss|
  {
    if ss != [] {
      var c := HeadStep(p, ss[0], cash).rest;
      NoOpenAdvanceSkipped(p, ss[1..], c);
      DrainedSweepIsNoOp(p, ss[1..]);
      var o := Traverse(p, ss, cash);
      var t := Traverse(p, ss[1..], c);
      forall i, j | 0 <= i < j < |ss| && o.visited[j] && !IsClose(ss[i])
        ensures o.visited[i]
      {
        assert o.visited[j] == t.visited[j - 1];
        if i > 0 {
          assert ss[i] == ss[1..][i - 1] && o.visited[i] == t.visited[i - 1];
        }
      }
    }
  }

  /** Capital is paid oldest first: a later advance receives capital only after every
      earlier open advance has been paid off and removed from the list. */
  lemma {:induction false} CapitalOldestFirst(ss: seq<AdvanceState>, cash: real)
    requires cash >= 0.0
    ensures forall i, j :: 0 <= i < j < |ss| && Traverse(CapitalPass, ss, cash).visited[j] && !IsClose(ss[i]) ==>
      IsClose(Traverse(CapitalPass, ss, cash).states[i]) && !Traverse(CapitalPass, ss, cash).kept[i]
    decreases |ss|
  {
    if ss != [] {
      var c := HeadStep(CapitalPass, ss[0], cash).rest;
      CapitalOldestFirst(ss[1..], c);
      DrainedSweepIsNoOp(CapitalPass, ss[1..]);
      var o := Traverse(CapitalPass, ss, cash);
      var t := Traverse(CapitalPass, ss[1..], c);
      forall i, j | 0 <= i < j < |ss| && o.visited[j] && !IsClose(ss[i])
        ensures IsClose(o.states[i]) && !o.kept[i]
      {
        assert o.visited[j] == t.visited[j - 1];
        if i > 0 {
          assert ss[i] == ss[1..][i - 1] && o.states[i] == t.states[i - 1] && o.kept[i] == t.kept[i - 1];
        } else {
          assert c != 0.0 && cash != 0.0;
          var st := Apply(CapitalPass, ss[0], cash);
          assert c == st.rest;
          assert o.states[0] == st.after && o.kept[0] == !IsClose(st.after);
        }
      }
    }
  }

  /** The capital sweep ends with an empty buffer or with every advance closed. */
  lemma {:induction false} CapitalSweepClears(ss: seq<AdvanceState>, cash: real)
    requires cash >= 0.0
    ensures var o := Traverse(CapitalPass, ss, cash);
      o.cash == 0.0 || forall i :: 0 <= i < |ss| ==> IsClose(o.states[i])
    decreases |ss|
  {
    if ss != [] {
      var c := HeadStep(CapitalPass, ss[0], cash).rest;
      CapitalSweepClears(ss[1..], c);
      DrainedSweepIsNoOp(CapitalPass, ss[1..]);
      var o := Traverse(CapitalPass, ss, cash);
      var t := Traverse(CapitalPass, ss[1..], c);
      if o.cash != 0.0 {
        forall i | 0 <= i < |ss|
          ensures IsClose(o.states[i])
        {
          if i > 0 {
            assert o.states[i] == t.states[i - 1];
          }
        }
      }
    }
  }

  /** The capital sweep collects no interest: what it takes from the buffer all goes to
      principal. */
  lemma {:induction false} CapitalSweepCollectsNoInterest(ss: seq<AdvanceState>, cash: real)
    requires cash >= 0.0
    ensures Traverse(CapitalPass, ss, cash).interestPaid == 0.0
    decreases |ss|
  {
    if ss != [] {
      CapitalSweepCollectsNoInterest(ss[1..], HeadStep(CapitalPass, ss[0], cash).rest);
    }
  }

  /** The interest sweep gives up from the buffer exactly the interest it collects. */
  lemma {:induction false} InterestSweepSpendsOnInterest(d: Day, ss: seq<AdvanceState>, cash: real)
    requires cash >= 0.0
    ensures var o := Traverse(InterestPass(d), ss, cash); o.cash + o.interestPaid == cash
    decreases |ss|
  {
    if ss != [] {
      InterestSweepSpendsOnInterest(d, ss[1..], HeadStep(InterestPass(d), ss[0], cash).rest);
    }
  }

  /** The interest sweep touches no principal and removes no advance, and the buffer
      drops by exactly the interest collected. */
  lemma {:induction false} InterestSweepKeepsPrincipal(d: Day, ss: seq<AdvanceState>, cash: real)
    requires cash >= 0.0
    ensures var o := Traverse(InterestPass(d), ss, cash);
      && (forall i :: 0 <= i < |ss| ==>
            o.states[i].remaining == ss[i].remaining && o.states[i].rate == ss[i].rate && o.kept[i])
      && o.cash + o.interestPaid == cash
  {
    forall i | 0 <= i < |ss|
      ensures var o := Traverse(InterestPass(d), ss, cash);
        o.states[i].remaining == ss[i].remaining && o.states[i].rate == ss[i].rate && o.kept[i]
    {
      TraverseAt(InterestPass(d), ss, cash, i);
    }
    InterestSweepSpendsOnInterest(d, ss, cash);
  }

  /** On advances with no negative principal or rate, a sweep keeps them so, collects
      no negative interest and never grows the buffer. */
  lemma {:induction false} SweepKeepsNonNegative(p: Pass, ss: seq<AdvanceState>, cash: real)
    requires cash >= 0.0 && AllNonNegative(ss)
    ensures var o := Traverse(p, ss, cash);
      AllNonNegative(o.states) && o.interestPaid >= 0.0 && o.cash <= cash
    decreases |ss|
  {
    if ss != [] {
      var c := HeadStep(p, ss[0], cash).rest;
      assert AllNonNegative(ss[1..]) by {
        assert forall i :: 0 <= i < |ss| - 1 ==> ss[1..][i] == ss[i + 1];
      }
      SweepKeepsNonNegative(p, ss[1..], c);
      var o := Traverse(p, ss, cash);
      var t := Traverse(p, ss[1..], c);
      assert forall i :: 1 <= i < |ss| ==> o.states[i] == t.states[i - 1];
    }
  }

  /** A payment of `cash` on `paymentDate` (balance.py:197-199): the interest sweep
      and then the capital sweep over the same working list. */
  function Allocate(ss: seq<AdvanceState>, cash: real, paymentDate: Day): (o: Outcome)
    requires cash >= 0.0
    ensures |o.states| == |o.kept| == |ss|
    ensures o.cash >= 0.0
    ensures cash - o.cash == o.interestPaid + (Total(ss) - Total(o.states))
    // all the interest is collected by the interest sweep; the capital sweep only repays principal
    ensures o.interestPaid == Traverse(InterestPass(paymentDate), ss, cash).interestPaid
    ensures o.cash == 0.0 || forall i :: 0 <= i < |ss| ==> IsClose(o.states[i])
    ensures forall i :: 0 <= i < |ss| ==> (!o.kept[i] <==> !IsClose(ss[i]) && IsClose(o.states[i]))
    ensures AllNonNegative(ss) ==> AllNonNegative(o.states) && o.interestPaid >= 0.0
    // a closed advance never reopens
    ensures forall i :: 0 <= i < |ss| && IsClose(ss[i]) ==> IsClose(o.states[i])
  {
    var o1 := Traverse(InterestPass(paymentDate), ss, cash);
    var o2 := Traverse(CapitalPass, o1.states, o1.cash);
    InterestSweepKeepsPrincipal(paymentDate, ss, cash);
    SweepConserves(InterestPass(paymentDate), ss, cash);
    SweepConserves(CapitalPass, o1.states, o1.cash);
    CapitalSweepCollectsNoInterest(o1.states, o1.cash);
    CapitalSweepClears(o1.states, o1.cash);
    EvictionRule(InterestPass(paymentDate), ss, cash);
    EvictionRule(CapitalPass, o1.states, o1.cash);
    AllocateKeepsNonNegative(ss, cash, paymentDate);
    Outcome(o2.states, o2.kept, o2.visited, o2.cash, o1.interestPaid + o2.interestPaid)
  }

  /** A payment is the interest sweep followed by the capital sweep. */
  lemma AllocateSplit(ss: seq<AdvanceState>, cash: real, paymentDate: Day)
    requires cash >= 0.0
    ensures var o1 := Traverse(InterestPass(paymentDate), ss, cash);
      var o2 := Traverse(CapitalPass, o1.states, o1.cash);
      && Allocate(ss, cash, paymentDate).states == o2.states
      && Allocate(ss, cash, paymentDate).kept == o2.kept
      && Allocate(ss, cash, paymentDate).cash == o2.cash
      && Allocate(ss, cash, paymentDate).interestPaid == o1.interestPaid + o2.interestPaid
  {
  }

  lemma AllocateKeepsNonNegative(ss: seq<AdvanceState>, cash: real, paymentDate: Day)
    requires cash >= 0.0
    ensures var o1 := Traverse(InterestPass(paymentDate), ss, cash);
      var o2 := Traverse(CapitalPass, o1.states, o1.cash);
      AllNonNegative(ss) ==> AllNonNegative(o2.states) && o1.interestPaid + o2.interestPaid >= 0.0
  {
    if AllNonNegative(ss) {
      var o1 := Traverse(InterestPass(paymentDate), ss, cash);
      SweepKeepsNonNegative(InterestPass(paymentDate), ss, cash);
      SweepKeepsNonNegative(CapitalPass, o1.states, o1.cash);
    }
  }

  /** With no negative principal, nothing is owed exactly when every advance is closed. */
  lemma {:induction false} NothingOwedIffAllClosed(ss: seq<AdvanceState>)
    requires AllNonNegative(ss)
    ensures Total(ss) >= 0.0
    ensures Total(ss) == 0.0 <==> forall i :: 0 <= i < |ss| ==> IsClose(ss[i])
    decreases |ss|
  {
    if ss != [] {
      NothingOwedIffAllClosed(ss[1..]);
      assert forall i :: 1 <= i < |ss| ==> ss[i] == ss[1..][i - 1];
    }
  }

  /** After a payment on advances with no negative principal or rate, the buffer is
      empty or the advances left on the working list owe nothing. */
  lemma PaymentSettles(ss: seq<AdvanceState>, cash: real, paymentDate: Day)
    requires cash >= 0.0 && AllNonNegative(ss)
    ensures var o := Allocate(ss, cash, paymentDate);
      o.cash == 0.0 || Total(Keep(o.states, o.kept)) == 0.0
  {
    var o := Allocate(ss, cash, paymentDate);
    if o.cash != 0.0 {
      NothingOwedIffAllClosed(o.states);
      KeepTotal(o.states, o.kept);
    }
  }

  /** The entries of `s` whose flag in `kept` is set, in order. */
  function Keep<T>(s: seq<T>, kept: seq<bool>): seq<T>
    requires |kept| == |s|
  {
    if s == [] then [] else (if kept[0] then [s[0]] else []) + Keep(s[1..], kept[1..])
  }

  lemma {:induction false} KeepAppend<T>(a: seq<T>, ka: seq<bool>, b: seq<T>, kb: seq<bool>)
    requires |ka| == |a| && |kb| == |b|
    ensures Keep(a + b, ka + kb) == Keep(a, ka) + Keep(b, kb)
    decreases |a|
  {
    if a != [] {
      KeepAppend(a[1..], ka[1..], b, kb);
      assert (a + b)[1..] == a[1..] + b && (ka + kb)[1..] == ka[1..] + kb;
    } else {
      assert a + b == b && ka + kb == kb;
    }
  }

  lemma {:induction false} KeepAll<T>(s: seq<T>, kept: seq<bool>)
    requires |kept| == |s| && forall i :: 0 <= i < |kept| ==> kept[i]
    ensures Keep(s, kept) == s
    decreases |s|
  {
    if s != [] {
      assert forall i :: 0 <= i < |kept| - 1 ==> kept[1..][i] == kept[i + 1];
      KeepAll(s[1..], kept[1..]);
    }
  }

  /** Dropping only closed advances from a list leaves its principal total as it was. */
  lemma {:induction false} KeepTotal(ss: seq<AdvanceState>, kept: seq<bool>)
    requires |kept| == |ss|
    requires forall i :: 0 <= i < |ss| && !kept[i] ==> IsClose(ss[i])
    ensures Total(Keep(ss, kept)) == Total(ss)
    decreases |ss|
  {
    if ss != [] {
      assert forall i :: 0 <= i < |ss| - 1 ==> ss[1..][i] == ss[i + 1] && kept[1..][i] == kept[i + 1];
      KeepTotal(ss[1..], kept[1..]);
      var rest := Keep(ss[1..], kept[1..]);
      if kept[0] {
        assert Keep(ss, kept) == [ss[0]] + rest;
        assert ([ss[0]] + rest)[1..] == rest;
      } else {
        assert Keep(ss, kept) == rest;
      }
    }
  }

  /** The buffer that `add_advance` uses up front: the part of the new advance it
      covers, and what is left of it (balance.py:177-183). */
  datatype Offset = Offset(remaining: real, buffer: real)

  function OffsetAgainstBuffer(buffer: real, amount: real): (r: Offset)
    // the buffer drops by exactly the part of the advance it covers
    ensures buffer - r.buffer == amount - r.remaining
    // the buffer is used up or the advance is fully covered
    ensures r.buffer == 0.0 || r.remaining == 0.0
    ensures buffer >= 0.0 && amount >= 0.0 ==> 0.0 <= r.remaining <= amount && 0.0 <= r.buffer <= buffer
  {
    if buffer > amount then Offset(0.0, buffer - amount) else Offset(amount - buffer, 0.0)
  }

  /** Offsetting a new advance against the buffer is a capital payment of the whole
      buffer on that advance. */
  lemma OffsetIsCapitalPayment(buffer: real, amount: real, rate: real, date: Day)
    ensures var c := PayCapital(AdvanceState(amount, rate, date), buffer);
      OffsetAgainstBuffer(buffer, amount) == Offset(c.after.remaining, c.rest)
  {
  }

  /** A buffer of 200 against a new advance of 500 leaves 300 to repay and no buffer. */
  lemma OffsetExample()
    ensures OffsetAgainstBuffer(200.0, 500.0) == Offset(300.0, 0.0)
  {
  }

  /** The interest sweep of the payment below: one day's interest on each advance. */
  lemma TwoAdvanceInterestSweep()
    ensures var o := Traverse(InterestPass(1), [AdvanceState(100.0, 0.01, 0), AdvanceState(50.0, 0.01, 0)], 60.0);
      && o.states == [AdvanceState(100.0, 0.01, 1), AdvanceState(50.0, 0.01, 1)]
      && o.cash == 58.5 && o.interestPaid == 1.5
  {
    var a := AdvanceState(100.0, 0.01, 0);
    var b := AdvanceState(50.0, 0.01, 0);
    assert InterestPayable(a, 1) == 1.0;
    assert InterestPayable(b, 1) == 0.5;
    assert PayInterest(a, 60.0, 1) == InterestOutcome(a.(last := 1), 59.0, 1.0);
    assert PayInterest(b, 59.0, 1) == InterestOutcome(b.(last := 1), 58.5, 0.5);
    assert [a, b][1..] == [b] && [b][1..] == [];
    assert Apply(InterestPass(1), b, 59.0) == Step(b.(last := 1), 58.5, 0.5);
    assert Traverse(InterestPass(1), [], 58.5).cash == 58.5;
    var t := Traverse(InterestPass(1), [b], 59.0);
    assert t.states == [b.(last := 1)] && t.cash == 58.5;
  }

  /** Two advances of 100 and 50 at 1% a day, a payment of 60 one day later: the
      interest sweep collects 1.0 and 0.5, the capital sweep puts the remaining 58.5
      on the older advance only. */
  lemma TwoAdvancePaymentExample()
    ensures var o := Allocate([AdvanceState(100.0, 0.01, 0), AdvanceState(50.0, 0.01, 0)], 60.0, 1);
      && o.states == [AdvanceState(41.5, 0.01, 1), AdvanceState(50.0, 0.01, 1)]
      && o.kept == [true, true] && o.cash == 0.0 && o.interestPaid == 1.5
  {
    var a := AdvanceState(100.0, 0.01, 1);
    var b := AdvanceState(50.0, 0.01, 1);
    TwoAdvanceInterestSweep();
    AllocateSplit([AdvanceState(100.0, 0.01, 0), AdvanceState(50.0, 0.01, 0)], 60.0, 1);
    assert [a, b][1..] == [b];
    assert PayCapital(a, 58.5) == CapitalOutcome(a.(remaining := 41.5), 0.0);
    DrainedSweepIsNoOp(CapitalPass, [b]);
  }

  /** The interest sweep of the payment below: the older advance owes two days of 1.0
      and gets one whole day; the half left over settles both days of the younger one. */
  lemma PartialInterestSweep()
    ensures var o := Traverse(InterestPass(2), [AdvanceState(100.0, 0.01, 0), AdvanceState(10.0, 0.01, 0)], 1.5);
      && o.states == [AdvanceState(100.0, 0.01, 1), AdvanceState(10.0, 0.01, 2)]
      && o.cash == 0.3 && o.interestPaid == 1.2
  {
    var a := AdvanceState(100.0, 0.01, 0);
    var b := AdvanceState(10.0, 0.01, 0);
    assert InterestByDay(a) == 1.0 && InterestPayable(a, 2) == 2.0;
    assert InterestByDay(b) == 0.1 && InterestPayable(b, 2) == 0.2;
    assert (1.5 / 1.0).Floor == 1;
    assert PayInterest(a, 1.5, 2) == InterestOutcome(a.(last := 1), 0.5, 1.0);
    assert PayInterest(b, 0.5, 2) == InterestOutcome(b.(last := 2), 0.3, 0.2);
    assert [a, b][1..] == [b] && [b][1..] == [];
    assert Apply(InterestPass(2), b, 0.5) == Step(b.(last := 2), 0.3, 0.2);
    assert Traverse(InterestPass(2), [], 0.3).cash == 0.3;
    var t := Traverse(InterestPass(2), [b], 0.5);
    assert t.states == [b.(last := 2)] && t.cash == 0.3;
  }

  /** Interest is not always settled before capital: advances of 100 and 10 at 1% a day
      and a payment of 1.5 two days later. The older advance gets one of its two days of
      interest, the rest of the payment settles the younger one's interest, and the
      capital sweep then puts 0.3 on the older advance's principal while a day of its
      interest is still unpaid. */
  lemma InterestLeftBehindExample()
    ensures var o := Allocate([AdvanceState(100.0, 0.01, 0), AdvanceState(10.0, 0.01, 0)], 1.5, 2);
      && o.states == [AdvanceState(99.7, 0.01, 1), AdvanceState(10.0, 0.01, 2)]
      && o.kept == [true, true] && o.cash == 0.0 && o.interestPaid == 1.2
      && InterestPayable(o.states[0], 2) > 0.0
  {
    var a := AdvanceState(100.0, 0.01, 1);
    var b := AdvanceState(10.0, 0.01, 2);
    PartialInterestSweep();
    AllocateSplit([AdvanceState(100.0, 0.01, 0), AdvanceState(10.0, 0.01, 0)], 1.5, 2);
    assert [a, b][1..] == [b];
    assert PayCapital(a, 0.3) == CapitalOutcome(a.(remaining := 99.7), 0.0);
    DrainedSweepIsNoOp(CapitalPass, [b]);
    assert InterestPayable(a.(remaining := 99.7), 2) == Times(1, 0.997);
  }

  /** Three advances of 4, 5 and 20 and a capital sweep with 12: the first two close
      and leave the list one after the other, and the third still receives the rest. */
  lemma ConsecutiveClosuresExample()
    ensures var o := Traverse(CapitalPass,
        [AdvanceState(4.0, 0.01, 0), AdvanceState(5.0, 0.01, 0), AdvanceState(20.0, 0.01, 0)], 12.0);
      && o.states == [AdvanceState(0.0, 0.01, 0), AdvanceState(0.0, 0.01, 0), AdvanceState(17.0, 0.01, 0)]
      && o.kept == [false, false, true] && o.visited == [true, true, true] && o.cash == 0.0
  {
    var ss := [AdvanceState(4.0, 0.01, 0), AdvanceState(5.0, 0.01, 0), AdvanceState(20.0, 0.01, 0)];
    assert ss[1..] == [AdvanceState(5.0, 0.01, 0), AdvanceState(20.0, 0.01, 0)];
    assert ss[1..][1..] == [AdvanceState(20.0, 0.01, 0)];
  }
}

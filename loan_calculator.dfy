/** The amortization engine of the loan calculator: the input guard that decides
    whether a result is shown, and the month-by-month ledger computed for the
    equal-payment (annuity) and equal-principal repayment methods.
    Amounts are exact reals; the source's floating point is not modelled. */
module LoanCalculator {

  datatype Option<T> = None | Some(value: T)

  /** The unit the loan term is entered in: 'year' or anything else (months). */
  datatype TermUnit = Year | Month

  /** 'equal-payment' selects the annuity; every other value is equal principal. */
  datatype RepaymentMethod = EqualPayment | EqualPrincipal

  /** One row of the amortization schedule. */
  datatype Entry = Entry(period: int, payment: real, principal: real, interest: real, remainingBalance: real)

  /** The record returned by the engine. */
  datatype LoanResult = LoanResult(
    monthlyPayment: real,
    totalPayment: real,
    totalInterest: real,
    totalMonths: int,
    schedule: seq<Entry>,
    repaymentMethod: RepaymentMethod)

  // ---------------------------------------------------------------------------
  // Arithmetic helpers

  /** Math.pow for a natural exponent. */
  function Pow(x: real, n: nat): real
  {
    if n == 0 then 1.0 else x * Pow(x, n - 1)
  }

  function Max0(x: real): (m: real)
    ensures m >= 0.0 && m >= x
    ensures m == x || m == 0.0
  {
    if x > 0.0 then x else 0.0
  }

  lemma {:induction false} PowAtLeastOne(x: real, n: nat)
    requires x >= 1.0
    ensures Pow(x, n) >= 1.0
  {
    if n > 0 {
      PowAtLeastOne(x, n - 1);
    }
  }

  lemma {:induction false} PowMonotone(x: real, j: nat, k: nat)
    requires x >= 1.0 && j <= k
    ensures Pow(x, j) <= Pow(x, k)
  {
    if j < k {
      PowMonotone(x, j, k - 1);
      PowAtLeastOne(x, k - 1);
      assert Pow(x, k) == x * Pow(x, k - 1);
      assert x * Pow(x, k - 1) >= Pow(x, k - 1);
    }
  }

  lemma PowAboveOne(x: real, n: nat)
    requires x > 1.0 && n >= 1
    ensures Pow(x, n) > 1.0
  {
    PowAtLeastOne(x, n - 1);
    assert Pow(x, n) == x * Pow(x, n - 1);
    assert x * Pow(x, n - 1) > Pow(x, n - 1);
  }

  /** Sum of a sequence of amounts, peeling the last element. */
  function Sum(xs: seq<real>): real
  {
    if xs == [] then 0.0 else Sum(xs[..|xs| - 1]) + xs[|xs| - 1]
  }

  lemma SumAppend(xs: seq<real>, x: real)
    ensures Sum(xs + [x]) == Sum(xs) + x
  {
    assert (xs + [x])[..|xs|] == xs;
  }

  lemma SumPrefixStep(xs: seq<real>, k: nat)
    requires k < |xs|
    ensures Sum(xs[..k + 1]) == Sum(xs[..k]) + xs[k]
  {
    assert xs[..k + 1] == xs[..k] + [xs[k]];
    SumAppend(xs[..k], xs[k]);
  }

  function Principals(s: seq<Entry>): (xs: seq<real>)
    ensures |xs| == |s|
  {
    seq(|s|, i requires 0 <= i < |s| => s[i].principal)
  }

  function Interests(s: seq<Entry>): (xs: seq<real>)
    ensures |xs| == |s|
  {
    seq(|s|, i requires 0 <= i < |s| => s[i].interest)
  }

  // ---------------------------------------------------------------------------
  // Specification of the ledger

  /** The balance still owed before month k + 1, i.e. after the first k
      principal portions have been repaid (not clamped). */
  function Outstanding(s: seq<Entry>, loan: real, k: nat): real
    requires k <= |s|
  {
    loan - Sum(Principals(s)[..k])
  }

  lemma OutstandingStep(s: seq<Entry>, loan: real, k: nat)
    requires k < |s|
    ensures Outstanding(s, loan, k + 1) == Outstanding(s, loan, k) - s[k].principal
  {
    SumPrefixStep(Principals(s), k);
  }

  /** Row i of a schedule, whatever the method: period i + 1, the payment split
      into principal and interest, interest charged on the balance still owed,
      and the reported balance floored at zero. */
  predicate RowOk(s: seq<Entry>, loan: real, rate: real, i: nat)
    requires i < |s|
  {
    s[i].period == i + 1 &&
    s[i].payment == s[i].principal + s[i].interest &&
    s[i].interest == Outstanding(s, loan, i) * rate &&
    s[i].remainingBalance == Max0(Outstanding(s, loan, i + 1))
  }

  predicate IsLedger(s: seq<Entry>, loan: real, rate: real)
  {
    forall i :: 0 <= i < |s| ==> RowOk(s, loan, rate, i)
  }

  /** The fixed monthly payment of the annuity method (zero rate: linear). */
  function AnnuityPayment(loan: real, rate: real, n: nat): real
    requires rate >= 0.0 && n >= 1
  {
    if rate == 0.0 then loan / n as real
    else
      PowAboveOne(1.0 + rate, n);
      loan * (rate * Pow(1.0 + rate, n)) / (Pow(1.0 + rate, n) - 1.0)
  }

  predicate IsEqualPaymentSchedule(s: seq<Entry>, loan: real, rate: real, n: nat)
    requires rate >= 0.0 && n >= 1
  {
    |s| == n && IsLedger(s, loan, rate) &&
    forall i :: 0 <= i < |s| ==> s[i].payment == AnnuityPayment(loan, rate, n)
  }

  predicate IsEqualPrincipalSchedule(s: seq<Entry>, loan: real, rate: real, n: nat)
    requires n >= 1
  {
    |s| == n && IsLedger(s, loan, rate) &&
    forall i :: 0 <= i < |s| ==> s[i].principal == loan / n as real
  }

  /** Months in the term: years are multiplied by 12. */
  function TotalMonths(loanTerm: int, unit: TermUnit): (n: int)
    ensures n >= loanTerm || loanTerm < 0
    ensures n >= 1 <==> loanTerm >= 1
    ensures unit == Month ==> n == loanTerm
    ensures unit == Year ==> n == 12 * loanTerm
  {
    if unit == Year then loanTerm * 12 else loanTerm
  }

  /** The monthly rate derived from an annual rate in percent. */
  function MonthlyRate(interestRate: real): (r: real)
    ensures r * 1200.0 == interestRate
  {
    interestRate / 100.0 / 12.0
  }

  /** What calculateLoan returns for the given inputs. */
  predicate IsResultFor(res: LoanResult, loanAmount: real, interestRate: real, loanTerm: int,
                        unit: TermUnit, repayment: RepaymentMethod)
    requires interestRate >= 0.0 && loanTerm >= 1
  {
    var n := TotalMonths(loanTerm, unit);
    var rate := MonthlyRate(interestRate);
    res.totalMonths == n &&
    res.repaymentMethod == repayment &&
    res.totalInterest == Sum(Interests(res.schedule)) &&
    res.totalPayment == loanAmount + res.totalInterest &&
    match repayment
    case EqualPayment =>
      IsEqualPaymentSchedule(res.schedule, loanAmount, rate, n) &&
      res.monthlyPayment == AnnuityPayment(loanAmount, rate, n)
    case EqualPrincipal =>
      IsEqualPrincipalSchedule(res.schedule, loanAmount, rate, n) &&
      res.monthlyPayment == res.schedule[0].payment
  }

  // ---------------------------------------------------------------------------
  // The engine

  lemma LedgerAppend(s: seq<Entry>, loan: real, rate: real, e: Entry)
    requires IsLedger(s, loan, rate)
    requires e.period == |s| + 1
    requires e.payment == e.principal + e.interest
    requires e.interest == (loan - Sum(Principals(s))) * rate
    requires e.remainingBalance == Max0(loan - Sum(Principals(s)) - e.principal)
    ensures IsLedger(s + [e], loan, rate)
    ensures Sum(Principals(s + [e])) == Sum(Principals(s)) + e.principal
    ensures Sum(Interests(s + [e])) == Sum(Interests(s)) + e.interest
  {
    var t := s + [e];
    assert Principals(t) == Principals(s) + [e.principal];
    assert Interests(t) == Interests(s) + [e.interest];
    SumAppend(Principals(s), e.principal);
    SumAppend(Interests(s), e.interest);
    forall i | 0 <= i < |t|
      ensures RowOk(t, loan, rate, i)
    {
      AppendedRow(s, loan, rate, e, i);
    }
  }

  lemma AppendedRow(s: seq<Entry>, loan: real, rate: real, e: Entry, i: nat)
    requires IsLedger(s, loan, rate) && i <= |s|
    requires e.period == |s| + 1
    requires e.payment == e.principal + e.interest
    requires e.interest == (loan - Sum(Principals(s))) * rate
    requires e.remainingBalance == Max0(loan - Sum(Principals(s)) - e.principal)
    requires Principals(s + [e]) == Principals(s) + [e.principal]
    requires Sum(Principals(s + [e])) == Sum(Principals(s)) + e.principal
    ensures RowOk(s + [e], loan, rate, i)
  {
    OutstandingAppend(s, loan, e, i);
    if i < |s| {
      assert RowOk(s, loan, rate, i);
      OutstandingAppend(s, loan, e, i + 1);
    } else {
      assert Principals(s)[..i] == Principals(s);
      assert Principals(s + [e])[..i + 1] == Principals(s + [e]);
    }
  }

  /** Appending an entry leaves the balances of the earlier months unchanged. */
  lemma OutstandingAppend(s: seq<Entry>, loan: real, e: Entry, k: nat)
    requires k <= |s|
    requires Principals(s + [e]) == Principals(s) + [e.principal]
    ensures Outstanding(s + [e], loan, k) == Outstanding(s, loan, k)
  {
    assert Principals(s + [e])[..k] == Principals(s)[..k];
  }

  /** The equal-payment branch of calculateLoan: every month pays the fixed
      annuity payment, of which the interest on the balance is the first part. */
  method EqualPaymentLedger(principal: real, monthlyRate: real, totalMonths: nat)
    returns (schedule: seq<Entry>, totalInterest: real, monthlyPayment: real)
    requires monthlyRate >= 0.0 && totalMonths >= 1
    ensures monthlyPayment == AnnuityPayment(principal, monthlyRate, totalMonths)
    ensures IsEqualPaymentSchedule(schedule, principal, monthlyRate, totalMonths)
    ensures totalInterest == Sum(Interests(schedule))
  {
    schedule, totalInterest := [], 0.0;
    monthlyPayment := AnnuityPayment(principal, monthlyRate, totalMonths);
    var remainingPrincipal := principal;
    var month := 1;
    while month <= totalMonths
      invariant 1 <= month <= totalMonths + 1
      invariant |schedule| == month - 1
      invariant IsLedger(schedule, principal, monthlyRate)
      invariant remainingPrincipal == principal - Sum(Principals(schedule))
      invariant totalInterest == Sum(Interests(schedule))
      invariant forall i :: 0 <= i < |schedule| ==> schedule[i].payment == monthlyPayment
    {
      var interestPayment := remainingPrincipal * monthlyRate;
      var principalPayment := monthlyPayment - interestPayment;
      var e := Entry(month, monthlyPayment, principalPayment, interestPayment,
                     Max0(remainingPrincipal - principalPayment));
      LedgerAppend(schedule, principal, monthlyRate, e);
      remainingPrincipal := remainingPrincipal - principalPayment;
      totalInterest := totalInterest + interestPayment;
      schedule := schedule + [e];
      month := month + 1;
    }
  }

  /** The equal-principal branch of calculateLoan: every month repays the same
      share of the loan plus the interest on the balance. */
  method EqualPrincipalLedger(principal: real, monthlyRate: real, totalMonths: nat)
    returns (schedule: seq<Entry>, totalInterest: real)
    requires totalMonths >= 1
    ensures IsEqualPrincipalSchedule(schedule, principal, monthlyRate, totalMonths)
    ensures totalInterest == Sum(Interests(schedule))
  {
    schedule, totalInterest := [], 0.0;
    var principalPayment := principal / totalMonths as real;
    var remainingPrincipal := principal;
    var month := 1;
    while month <= totalMonths
      invariant 1 <= month <= totalMonths + 1
      invariant |schedule| == month - 1
      invariant IsLedger(schedule, principal, monthlyRate)
      invariant remainingPrincipal == principal - Sum(Principals(schedule))
      invariant totalInterest == Sum(Interests(schedule))
      invariant forall i :: 0 <= i < |schedule| ==> schedule[i].principal == principalPayment
    {
      var interestPayment := remainingPrincipal * monthlyRate;
      var totalPayment := principalPayment + interestPayment;
      var e := Entry(month, totalPayment, principalPayment, interestPayment,
                     Max0(remainingPrincipal - principalPayment));
      LedgerAppend(schedule, principal, monthlyRate, e);
      remainingPrincipal := remainingPrincipal - principalPayment;
      totalInterest := totalInterest + interestPayment;
      schedule := schedule + [e];
      month := month + 1;
    }
  }

  /** calculateLoan: the schedule, the totals and the headline payment. */
  method CalculateLoan(loanAmount: real, interestRate: real, loanTerm: int, unit: TermUnit,
                       repayment: RepaymentMethod) returns (res: LoanResult)
    requires interestRate >= 0.0 && loanTerm >= 1
    ensures |res.schedule| == res.totalMonths == TotalMonths(loanTerm, unit)
    ensures IsLedger(res.schedule, loanAmount, MonthlyRate(interestRate))
    ensures IsResultFor(res, loanAmount, interestRate, loanTerm, unit, repayment)
  {
    var principal := loanAmount;
    var monthlyRate := MonthlyRate(interestRate);
    var totalMonths := TotalMonths(loanTerm, unit);

    var schedule: seq<Entry>;
    var totalInterest: real;
    var monthlyPayment: real;
    if repayment == EqualPayment {
      schedule, totalInterest, monthlyPayment := EqualPaymentLedger(principal, monthlyRate, totalMonths);
    } else {
      schedule, totalInterest := EqualPrincipalLedger(principal, monthlyRate, totalMonths);
      monthlyPayment := schedule[0].payment;
    }
    res := LoanResult(monthlyPayment, principal + totalInterest, totalInterest, totalMonths,
                      schedule, repayment);
  }

  /** The effect that recomputes the result when an input changes: a result only
      for a positive amount, a non-negative rate and a positive term. */
  method Recalculate(loanAmount: real, interestRate: real, loanTerm: int, unit: TermUnit,
                     repayment: RepaymentMethod) returns (results: Option<LoanResult>)
    ensures results.Some? <==> loanAmount > 0.0 && interestRate >= 0.0 && loanTerm > 0
    ensures results.Some? ==>
      IsResultFor(results.value, loanAmount, interestRate, loanTerm, unit, repayment)
  {
    if loanAmount > 0.0 && interestRate >= 0.0 && loanTerm > 0 {
      var r := CalculateLoan(loanAmount, interestRate, loanTerm, unit, repayment);
      results := Some(r);
    } else {
      results := None;
    }
  }
}

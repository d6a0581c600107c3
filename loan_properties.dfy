/** What the two repayment methods guarantee about the schedules they build,
    proved from the ledger specification in LoanCalculator. */
module LoanProperties {
  import opened LoanCalculator

  function Payments(s: seq<Entry>): (xs: seq<real>)
    ensures |xs| == |s|
  {
    seq(|s|, i requires 0 <= i < |s| => s[i].payment)
  }

  lemma OutstandingStart(s: seq<Entry>, loan: real)
    ensures Outstanding(s, loan, 0) == loan
  {
    assert Principals(s)[..0] == [];
  }

  lemma OutstandingEnd(s: seq<Entry>, loan: real)
    ensures Outstanding(s, loan, |s|) == loan - Sum(Principals(s))
  {
    assert Principals(s)[..|s|] == Principals(s);
  }

  // ---------------------------------------------------------------------------
  // Both methods

  /** The payments of a ledger add up to its principal and interest portions,
      so the total paid is the loan plus the total interest once it is repaid. */
  lemma PaymentsSplit(s: seq<Entry>, loan: real, rate: real)
    requires IsLedger(s, loan, rate)
    ensures Sum(Payments(s)) == Sum(Principals(s)) + Sum(Interests(s))
  {
    forall i | 0 <= i < |s| ensures s[i].payment == s[i].principal + s[i].interest {
      assert RowOk(s, loan, rate, i);
    }
    PaymentsSplitRows(s);
  }

  lemma {:induction false} PaymentsSplitRows(s: seq<Entry>)
    requires forall i :: 0 <= i < |s| ==> s[i].payment == s[i].principal + s[i].interest
    ensures Sum(Payments(s)) == Sum(Principals(s)) + Sum(Interests(s))
  {
    if s != [] {
      var init := s[..|s| - 1];
      var last := s[|s| - 1];
      PaymentsSplitRows(init);
      assert Payments(s) == Payments(init) + [last.payment];
      assert Principals(s) == Principals(init) + [last.principal];
      assert Interests(s) == Interests(init) + [last.interest];
      SumAppend(Payments(init), last.payment);
      SumAppend(Principals(init), last.principal);
      SumAppend(Interests(init), last.interest);
    }
  }

  // ---------------------------------------------------------------------------
  // Equal principal

  /** After k equal principal portions the balance is the loan less k shares. */
  lemma {:induction false} EqualPrincipalOutstanding(s: seq<Entry>, loan: real, rate: real, n: nat, k: nat)
    requires n >= 1 && IsEqualPrincipalSchedule(s, loan, rate, n) && k <= n
    ensures Outstanding(s, loan, k) == loan - k as real * (loan / n as real)
  {
    if k == 0 {
      OutstandingStart(s, loan);
    } else {
      EqualPrincipalOutstanding(s, loan, rate, n, k - 1);
      OutstandingStep(s, loan, k - 1);
    }
  }

  lemma SharesLeft(loan: real, n: nat, k: nat)
    requires n >= 1 && k <= n
    ensures loan - k as real * (loan / n as real) == (n - k) as real * (loan / n as real)
    ensures n as real * (loan / n as real) == loan
  {
    var c := loan / n as real;
    assert (n - k) as real * c == n as real * c - k as real * c;
  }

  /** Equal principal repays the loan exactly, and the clamp never engages for a
      non-negative loan: the balance after month i + 1 is n - i - 1 shares. */
  lemma EqualPrincipalPaysOff(s: seq<Entry>, loan: real, rate: real, n: nat)
    requires n >= 1 && IsEqualPrincipalSchedule(s, loan, rate, n)
    ensures Outstanding(s, loan, n) == 0.0
    ensures Sum(Principals(s)) == loan
    ensures s[n - 1].remainingBalance == 0.0
    ensures loan >= 0.0 ==> forall i :: 0 <= i < n ==>
      s[i].remainingBalance == (n - i - 1) as real * (loan / n as real)
  {
    EqualPrincipalOutstanding(s, loan, rate, n, n);
    SharesLeft(loan, n, n);
    OutstandingEnd(s, loan);
    assert RowOk(s, loan, rate, n - 1);
    if loan >= 0.0 {
      forall i | 0 <= i < n
        ensures s[i].remainingBalance == (n - i - 1) as real * (loan / n as real)
      {
        EqualPrincipalBalanceAt(s, loan, rate, n, i);
      }
    }
  }

  lemma EqualPrincipalBalanceAt(s: seq<Entry>, loan: real, rate: real, n: nat, i: nat)
    requires n >= 1 && IsEqualPrincipalSchedule(s, loan, rate, n) && loan >= 0.0 && i < n
    ensures s[i].remainingBalance == (n - i - 1) as real * (loan / n as real)
  {
    var c := loan / n as real;
    assert RowOk(s, loan, rate, i);
    EqualPrincipalOutstanding(s, loan, rate, n, i + 1);
    SharesLeft(loan, n, i + 1);
    SharesSign(loan, n, i + 1);
  }

  /** With a non-negative rate and loan, interest and payment never rise. */
  lemma EqualPrincipalNonIncreasing(s: seq<Entry>, loan: real, rate: real, n: nat, i: nat)
    requires n >= 1 && IsEqualPrincipalSchedule(s, loan, rate, n)
    requires loan >= 0.0 && rate >= 0.0 && i + 1 < n
    ensures s[i + 1].interest <= s[i].interest
    ensures s[i + 1].payment <= s[i].payment
  {
    assert RowOk(s, loan, rate, i);
    assert RowOk(s, loan, rate, i + 1);
    OutstandingStep(s, loan, i);
    InterestFalls(Outstanding(s, loan, i), loan / n as real, rate,
                  s[i].interest, s[i + 1].interest, s[i].payment, s[i + 1].payment);
  }

  lemma InterestFalls(b: real, c: real, rate: real, i0: real, i1: real, p0: real, p1: real)
    requires c >= 0.0 && rate >= 0.0
    requires i0 == b * rate && i1 == (b - c) * rate
    requires p0 == c + i0 && p1 == c + i1
    ensures i1 <= i0 && p1 <= p0
  {
    assert (b - c) * rate == b * rate - c * rate;
  }

  /** The interest of equal principal over n months: rate * loan * (n + 1) / 2. */
  lemma EqualPrincipalTotalInterest(s: seq<Entry>, loan: real, rate: real, n: nat)
    requires n >= 1 && IsEqualPrincipalSchedule(s, loan, rate, n)
    ensures Sum(Interests(s)) == rate * loan * (n + 1) as real / 2.0
  {
    EqualPrincipalInterestPrefix(s, loan, rate, n, n);
    assert Interests(s)[..n] == Interests(s);
    PrefixInterestFull(loan, rate, n);
  }

  /** The interest of the first k months of an equal-principal loan repaying c
      a month: rate * (k * loan - c * k * (k - 1) / 2). */
  function PrefixInterest(loan: real, rate: real, c: real, k: nat): real
  {
    rate * (k as real * loan - c * k as real * (k as real - 1.0) / 2.0)
  }

  lemma {:induction false} EqualPrincipalInterestPrefix(s: seq<Entry>, loan: real, rate: real, n: nat, k: nat)
    requires n >= 1 && IsEqualPrincipalSchedule(s, loan, rate, n) && k <= n
    ensures Sum(Interests(s)[..k]) == PrefixInterest(loan, rate, loan / n as real, k)
  {
    if k == 0 {
      assert Interests(s)[..0] == [];
    } else {
      var j := k - 1;
      EqualPrincipalInterestPrefix(s, loan, rate, n, j);
      SumPrefixStep(Interests(s), j);
      assert RowOk(s, loan, rate, j);
      EqualPrincipalOutstanding(s, loan, rate, n, j);
      InterestPrefixStep(loan, rate, loan / n as real, j, Interests(s)[j]);
    }
  }

  lemma InterestPrefixStep(loan: real, rate: real, c: real, j: nat, cur: real)
    requires cur == (loan - j as real * c) * rate
    ensures PrefixInterest(loan, rate, c, j + 1) == PrefixInterest(loan, rate, c, j) + cur
  {
    var x := j as real;
    assert (j + 1) as real == x + 1.0;
    assert c * (x + 1.0) * x / 2.0 == c * x * (x - 1.0) / 2.0 + x * c;
  }

  lemma PrefixInterestFull(loan: real, rate: real, n: nat)
    requires n >= 1
    ensures PrefixInterest(loan, rate, loan / n as real, n) == rate * loan * (n + 1) as real / 2.0
  {
    var c := loan / n as real;
    var N := n as real;
    assert N * c == loan;
    assert rate * (N * loan - c * N * (N - 1.0) / 2.0) == rate * (N * loan - loan * (N - 1.0) / 2.0);
  }

  // ---------------------------------------------------------------------------
  // Equal payment

  /** At a zero rate the annuity is linear: no interest accrues, every month
      repays principal / n, and the schedule is the equal-principal one. */
  lemma ZeroRateEqualPayment(s: seq<Entry>, loan: real, n: nat)
    requires n >= 1 && IsEqualPaymentSchedule(s, loan, 0.0, n)
    ensures AnnuityPayment(loan, 0.0, n) == loan / n as real
    ensures forall i :: 0 <= i < n ==> s[i].interest == 0.0 && s[i].principal == loan / n as real
    ensures IsEqualPrincipalSchedule(s, loan, 0.0, n)
    ensures Sum(Interests(s)) == 0.0
  {
    forall i | 0 <= i < n ensures s[i].interest == 0.0 && s[i].principal == loan / n as real {
      assert RowOk(s, loan, 0.0, i);
    }
    EqualPrincipalTotalInterest(s, loan, 0.0, n);
  }

  /** Each month's principal portion is the previous one grown by the rate. */
  lemma EqualPaymentPrincipalGrows(s: seq<Entry>, loan: real, rate: real, n: nat, i: nat)
    requires n >= 1 && rate >= 0.0 && IsEqualPaymentSchedule(s, loan, rate, n) && i + 1 < n
    ensures s[i + 1].principal == s[i].principal * (1.0 + rate)
    ensures s[i + 1].interest == s[i].interest - s[i].principal * rate
  {
    assert RowOk(s, loan, rate, i);
    assert RowOk(s, loan, rate, i + 1);
    OutstandingStep(s, loan, i);
    var b := Outstanding(s, loan, i);
    var p := s[i].principal;
    assert (b - p) * rate == b * rate - p * rate;
  }

  /** The annuity payment m satisfies m * (q^n - 1) == loan * rate * q^n. */
  lemma AnnuityPaymentIdentity(loan: real, rate: real, n: nat)
    requires rate > 0.0 && n >= 1
    ensures Pow(1.0 + rate, n) > 1.0
    ensures AnnuityPayment(loan, rate, n) * (Pow(1.0 + rate, n) - 1.0) == loan * rate * Pow(1.0 + rate, n)
  {
    PowAboveOne(1.0 + rate, n);
    var qn := Pow(1.0 + rate, n);
    var a := loan * (rate * qn);
    var d := qn - 1.0;
    assert AnnuityPayment(loan, rate, n) == a / d;
    assert (a / d) * d == a;
  }

  lemma RecurrenceStep(loan: real, rate: real, m: real, b: real, qj: real, b': real, qk: real)
    requires b * rate == loan * rate * qj - m * (qj - 1.0)
    requires b' == b * (1.0 + rate) - m && qk == (1.0 + rate) * qj
    ensures b' * rate == loan * rate * qk - m * (qk - 1.0)
  {
    var x := b * rate;
    assert (b * (1.0 + rate) - m) * rate == x * (1.0 + rate) - m * rate;
    assert x * (1.0 + rate) == (loan * rate * qj - m * (qj - 1.0)) * (1.0 + rate);
  }

  lemma ClosedFormStep(loan: real, rate: real, m: real, b: real, qk: real, qn: real)
    requires rate > 0.0 && qn > 1.0
    requires m * (qn - 1.0) == loan * rate * qn
    requires b * rate == loan * rate * qk - m * (qk - 1.0)
    ensures b * (qn - 1.0) == loan * (qn - qk)
  {
    var d := qn - 1.0;
    assert b * rate * d == loan * rate * qk * d - (m * d) * (qk - 1.0);
    assert b * rate * d == loan * rate * qk * d - loan * rate * qn * (qk - 1.0);
    assert loan * rate * qk * d - loan * rate * qn * (qk - 1.0) == rate * (loan * (qn - qk));
    assert rate * (b * d) == rate * (loan * (qn - qk));
  }

  /** The standard remaining-balance formula of an annuity: after k months the
      balance is loan * (q^n - q^k) / (q^n - 1) with q = 1 + rate. */
  lemma EqualPaymentOutstanding(s: seq<Entry>, loan: real, rate: real, n: nat, k: nat)
    requires n >= 1 && rate > 0.0 && IsEqualPaymentSchedule(s, loan, rate, n) && k <= n
    ensures Pow(1.0 + rate, n) > 1.0
    ensures Outstanding(s, loan, k) * (Pow(1.0 + rate, n) - 1.0) ==
      loan * (Pow(1.0 + rate, n) - Pow(1.0 + rate, k))
  {
    AnnuityPaymentIdentity(loan, rate, n);
    AnnuityRecurrence(s, loan, rate, AnnuityPayment(loan, rate, n), k);
    ClosedFormStep(loan, rate, AnnuityPayment(loan, rate, n), Outstanding(s, loan, k),
                   Pow(1.0 + rate, k), Pow(1.0 + rate, n));
  }

  /** With a constant payment m the balance obeys
      b(k) * rate == loan * rate * q^k - m * (q^k - 1). */
  lemma {:induction false} AnnuityRecurrence(s: seq<Entry>, loan: real, rate: real, m: real, k: nat)
    requires IsLedger(s, loan, rate) && k <= |s|
    requires forall i :: 0 <= i < |s| ==> s[i].payment == m
    ensures Outstanding(s, loan, k) * rate == loan * rate * Pow(1.0 + rate, k) - m * (Pow(1.0 + rate, k) - 1.0)
  {
    if k == 0 {
      OutstandingStart(s, loan);
    } else {
      var j := k - 1;
      AnnuityRecurrence(s, loan, rate, m, j);
      OutstandingStep(s, loan, j);
      assert RowOk(s, loan, rate, j);
      var b := Outstanding(s, loan, j);
      assert Outstanding(s, loan, k) == b * (1.0 + rate) - m;
      RecurrenceStep(loan, rate, m, b, Pow(1.0 + rate, j), Outstanding(s, loan, k), Pow(1.0 + rate, k));
    }
  }

  /** The annuity repays the loan exactly; for a non-negative loan the balance
      never goes below zero, so the clamp never engages. */
  lemma EqualPaymentPaysOff(s: seq<Entry>, loan: real, rate: real, n: nat)
    requires n >= 1 && rate >= 0.0 && IsEqualPaymentSchedule(s, loan, rate, n)
    ensures Outstanding(s, loan, n) == 0.0
    ensures Sum(Principals(s)) == loan
    ensures s[n - 1].remainingBalance == 0.0
    ensures loan >= 0.0 ==> forall k :: 0 <= k <= n ==> Outstanding(s, loan, k) >= 0.0
  {
    OutstandingEnd(s, loan);
    assert RowOk(s, loan, rate, n - 1);
    EqualPaymentBalanceSign(s, loan, rate, n, n);
    if loan >= 0.0 {
      forall k | 0 <= k <= n ensures Outstanding(s, loan, k) >= 0.0 {
        EqualPaymentBalanceSign(s, loan, rate, n, k);
      }
    }
  }

  lemma EqualPaymentBalanceSign(s: seq<Entry>, loan: real, rate: real, n: nat, k: nat)
    requires n >= 1 && rate >= 0.0 && IsEqualPaymentSchedule(s, loan, rate, n) && k <= n
    ensures k == n ==> Outstanding(s, loan, k) == 0.0
    ensures loan >= 0.0 ==> Outstanding(s, loan, k) >= 0.0
  {
    if rate == 0.0 {
      ZeroRateEqualPayment(s, loan, n);
      EqualPrincipalOutstanding(s, loan, rate, n, k);
      SharesLeft(loan, n, k);
      SharesSign(loan, n, k);
    } else {
      var qn := Pow(1.0 + rate, n);
      var qk := Pow(1.0 + rate, k);
      EqualPaymentOutstanding(s, loan, rate, n, k);
      PowMonotone(1.0 + rate, k, n);
      BalanceSign(Outstanding(s, loan, k), qn, qk, loan);
    }
  }

  lemma SharesSign(loan: real, n: nat, k: nat)
    requires n >= 1 && k <= n
    ensures k == n ==> (n - k) as real * (loan / n as real) == 0.0
    ensures loan >= 0.0 ==> (n - k) as real * (loan / n as real) >= 0.0
  {
    var c := loan / n as real;
    if loan >= 0.0 {
      assert c >= 0.0;
      assert (n - k) as real >= 0.0;
    }
  }

  lemma BalanceSign(b: real, qn: real, qk: real, loan: real)
    requires qn > 1.0 && qk <= qn && b * (qn - 1.0) == loan * (qn - qk)
    ensures qk == qn ==> b == 0.0
    ensures loan >= 0.0 ==> b >= 0.0
  {
    var d := qn - 1.0;
    if loan >= 0.0 {
      assert loan * (qn - qk) >= 0.0;
      FactorSign(b, d);
    }
    if qk == qn {
      FactorSign(b, d);
      FactorSign(-b, d);
    }
  }

  /** A product with a positive factor has the sign of the other factor. */
  lemma FactorSign(x: real, d: real)
    requires d > 0.0
    ensures x * d >= 0.0 ==> x >= 0.0
  {
  }

  /** With a positive rate and loan, the interest portion strictly falls and the
      principal portion strictly rises from month to month. */
  lemma EqualPaymentInterestFalls(s: seq<Entry>, loan: real, rate: real, n: nat, i: nat)
    requires n >= 1 && rate > 0.0 && loan > 0.0 && IsEqualPaymentSchedule(s, loan, rate, n) && i + 1 < n
    ensures s[i + 1].interest < s[i].interest
    ensures s[i + 1].principal > s[i].principal
  {
    EqualPaymentPrincipalPositive(s, loan, rate, n, i);
    EqualPaymentPrincipalGrows(s, loan, rate, n, i);
    assert s[i].principal * rate > 0.0;
  }

  lemma {:induction false} EqualPaymentPrincipalPositive(s: seq<Entry>, loan: real, rate: real, n: nat, i: nat)
    requires n >= 1 && rate > 0.0 && loan > 0.0 && IsEqualPaymentSchedule(s, loan, rate, n) && i < n
    ensures s[i].principal > 0.0
  {
    if i == 0 {
      var q := 1.0 + rate;
      PowAboveOne(q, n);
      var qn := Pow(q, n);
      var d := qn - 1.0;
      var m := AnnuityPayment(loan, rate, n);
      assert RowOk(s, loan, rate, 0);
      OutstandingStart(s, loan);
      assert m * d == loan * rate * qn;
      assert (m - loan * rate) * d == loan * rate;
      assert loan * rate > 0.0;
      assert s[0].principal == m - loan * rate;
    } else {
      EqualPaymentPrincipalPositive(s, loan, rate, n, i - 1);
      EqualPaymentPrincipalGrows(s, loan, rate, n, i - 1);
      assert s[i - 1].principal * (1.0 + rate) > 0.0;
    }
  }

  // ---------------------------------------------------------------------------
  // Results of calculateLoan

  /** Whatever the method, a result repays exactly the loan in principal, its
      last balance is zero, and its total payment is the sum of its payments. */
  lemma ResultPaysOff(res: LoanResult, loanAmount: real, interestRate: real, loanTerm: int,
                      unit: TermUnit, repayment: RepaymentMethod)
    requires interestRate >= 0.0 && loanTerm >= 1
    requires IsResultFor(res, loanAmount, interestRate, loanTerm, unit, repayment)
    ensures |res.schedule| == res.totalMonths >= 1
    ensures Sum(Principals(res.schedule)) == loanAmount
    ensures res.schedule[|res.schedule| - 1].remainingBalance == 0.0
    ensures res.totalPayment == Sum(Payments(res.schedule))
  {
    var n := TotalMonths(loanTerm, unit);
    var rate := MonthlyRate(interestRate);
    if repayment == EqualPayment {
      EqualPaymentPaysOff(res.schedule, loanAmount, rate, n);
    } else {
      EqualPrincipalPaysOff(res.schedule, loanAmount, rate, n);
    }
    PaymentsSplit(res.schedule, loanAmount, rate);
  }

  /** Two ledgers over the same loan and rate, in which equal interest always
      means equal principal, are the same ledger. */
  lemma {:induction false} LedgersAgree(s: seq<Entry>, t: seq<Entry>, loan: real, rate: real, k: nat)
    requires IsLedger(s, loan, rate) && IsLedger(t, loan, rate) && |s| == |t| && k <= |s|
    requires forall i :: 0 <= i < |s| && s[i].interest == t[i].interest ==> s[i].principal == t[i].principal
    ensures s[..k] == t[..k]
  {
    if k > 0 {
      var j := k - 1;
      LedgersAgree(s, t, loan, rate, j);
      assert Principals(s)[..j] == Principals(t)[..j] by {
        forall i | 0 <= i < j ensures Principals(s)[i] == Principals(t)[i] {
          assert s[..j][i] == t[..j][i];
        }
      }
      assert RowOk(s, loan, rate, j);
      assert RowOk(t, loan, rate, j);
      OutstandingStep(s, loan, j);
      OutstandingStep(t, loan, j);
      assert s[j] == t[j];
      assert s[..k] == s[..j] + [s[j]];
      assert t[..k] == t[..j] + [t[j]];
    }
  }

  /** calculateLoan is deterministic: its specification admits exactly one
      result for given inputs. */
  lemma ResultDeterministic(res1: LoanResult, res2: LoanResult, loanAmount: real, interestRate: real,
                            loanTerm: int, unit: TermUnit, repayment: RepaymentMethod)
    requires interestRate >= 0.0 && loanTerm >= 1
    requires IsResultFor(res1, loanAmount, interestRate, loanTerm, unit, repayment)
    requires IsResultFor(res2, loanAmount, interestRate, loanTerm, unit, repayment)
    ensures res1 == res2
  {
    var s, t := res1.schedule, res2.schedule;
    var rate := MonthlyRate(interestRate);
    forall i | 0 <= i < |s| && s[i].interest == t[i].interest
      ensures s[i].principal == t[i].principal
    {
      assert RowOk(s, loanAmount, rate, i);
      assert RowOk(t, loanAmount, rate, i);
    }
    LedgersAgree(s, t, loanAmount, rate, |s|);
    assert s[..|s|] == s;
    assert t[..|t|] == t;
  }

  /** 1,000,000 at 2.5% over 20 years repaid in equal principal: 240 months,
      a first payment of exactly 6250, a last one of 1,000,000 * 481 / 115,200
      and total interest of 1,000,000 * 241 / 960. */
  lemma EqualPrincipalScenario(res: LoanResult)
    requires IsResultFor(res, 1000000.0, 2.5, 20, Year, EqualPrincipal)
    ensures |res.schedule| == res.totalMonths == 240
    ensures res.monthlyPayment == 6250.0
    ensures res.schedule[239].payment == 1000000.0 * 481.0 / 115200.0
    ensures res.totalInterest == 1000000.0 * 241.0 / 960.0
  {
    var s := res.schedule;
    var rate := MonthlyRate(2.5);
    assert rate == 1.0 / 480.0;
    assert RowOk(s, 1000000.0, rate, 0);
    OutstandingStart(s, 1000000.0);
    assert RowOk(s, 1000000.0, rate, 239);
    EqualPrincipalOutstanding(s, 1000000.0, rate, 240, 239);
    EqualPrincipalTotalInterest(s, 1000000.0, rate, 240);
  }
}

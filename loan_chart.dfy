/** The chart view's use of the schedule: a downsampled series for the line,
    area and bar charts, and the principal / interest totals for the pie chart.
    Rounding to whole units for display is not modelled. */
module LoanChart {
  import opened LoanCalculator
  import LoanProperties

  /** One point of the chart series. */
  datatype ChartPoint = ChartPoint(period: int, principal: real, interest: real,
                                   remainingBalance: real, payment: real)

  function ToPoint(e: Entry): ChartPoint
  {
    ChartPoint(e.period, e.principal, e.interest, e.remainingBalance, e.payment)
  }

  /** Keep about 50 points: every floor(len / 50)-th entry, at least every one. */
  function SampleRate(len: nat): (k: nat)
    ensures k >= 1
    ensures len < 100 ==> k == 1
    ensures len >= 100 ==> 50 * k <= len < 50 * (k + 1)
  {
    var every := len / 50;
    if 1 >= every then 1 else every
  }

  /** The filter condition: a sampled index or the last one. */
  predicate Kept(index: nat, len: nat, rate: nat)
    requires rate >= 1
  {
    index % rate == 0 || index == len - 1
  }

  /** The indices in [from, len) that pass the filter, in increasing order. */
  function KeptIndices(len: nat, rate: nat, from: nat): (idx: seq<nat>)
    requires rate >= 1
    ensures from <= len ==> |idx| <= len - from
    ensures forall j :: 0 <= j < |idx| ==> from <= idx[j] < len && Kept(idx[j], len, rate)
    ensures forall j, j' :: 0 <= j < j' < |idx| ==> idx[j] < idx[j']
    ensures forall i :: from <= i < len && Kept(i, len, rate) ==> i in idx
    decreases len - from
  {
    if from >= len then []
    else if Kept(from, len, rate) then [from] + KeptIndices(len, rate, from + 1)
    else KeptIndices(len, rate, from + 1)
  }

  /** chartData: the schedule filtered by index, then mapped to chart points. */
  function ChartData(schedule: seq<Entry>): seq<ChartPoint>
  {
    var idx := KeptIndices(|schedule|, SampleRate(|schedule|), 0);
    seq(|idx|, j requires 0 <= j < |idx| => ToPoint(schedule[idx[j]]))
  }

  /** The chart series is a selection of the schedule: each point copies an
      entry of it, so there are at most as many points as entries. */
  lemma ChartDataIsSelection(schedule: seq<Entry>)
    ensures |ChartData(schedule)| <= |schedule|
    ensures forall j :: 0 <= j < |ChartData(schedule)| ==>
      exists i :: 0 <= i < |schedule| && ChartData(schedule)[j] == ToPoint(schedule[i])
  {
    var c := ChartData(schedule);
    var idx := KeptIndices(|schedule|, SampleRate(|schedule|), 0);
    forall j | 0 <= j < |c|
      ensures exists i :: 0 <= i < |schedule| && c[j] == ToPoint(schedule[i])
    {
      assert c[j] == ToPoint(schedule[idx[j]]);
    }
  }

  /** Charting a ledger keeps its order: the points' periods strictly increase
      and stay within 1 .. |schedule|. */
  lemma ChartPeriodsIncrease(schedule: seq<Entry>, loan: real, rate: real)
    requires IsLedger(schedule, loan, rate)
    ensures forall j :: 0 <= j < |ChartData(schedule)| ==>
      1 <= ChartData(schedule)[j].period <= |schedule|
    ensures forall j, j' :: 0 <= j < j' < |ChartData(schedule)| ==>
      1 <= ChartData(schedule)[j].period < ChartData(schedule)[j'].period <= |schedule|
  {
    var c := ChartData(schedule);
    var idx := KeptIndices(|schedule|, SampleRate(|schedule|), 0);
    forall j | 0 <= j < |c| ensures c[j].period == idx[j] + 1 {
      assert RowOk(schedule, loan, rate, idx[j]);
    }
  }

  /** The first and the last entry of a non-empty schedule are always charted. */
  lemma ChartDataKeepsEnds(schedule: seq<Entry>)
    requires |schedule| > 0
    ensures |ChartData(schedule)| >= 1
    ensures ChartData(schedule)[0] == ToPoint(schedule[0])
    ensures ChartData(schedule)[|ChartData(schedule)| - 1] == ToPoint(schedule[|schedule| - 1])
  {
    var len := |schedule|;
    var rate := SampleRate(len);
    var idx := KeptIndices(len, rate, 0);
    assert Kept(0, len, rate);
    assert Kept(len - 1, len, rate);
    assert 0 in idx;
    assert len - 1 in idx;
  }

  lemma {:induction false} AllKept(len: nat, from: nat)
    requires from <= len
    ensures |KeptIndices(len, 1, from)| == len - from
    ensures forall j :: 0 <= j < len - from ==> KeptIndices(len, 1, from)[j] == from + j
    decreases len - from
  {
    if from < len {
      AllKept(len, from + 1);
      assert Kept(from, len, 1);
    }
  }

  /** A schedule shorter than 100 months is charted in full. */
  lemma ShortScheduleChartedInFull(schedule: seq<Entry>)
    requires |schedule| < 100
    ensures SampleRate(|schedule|) == 1
    ensures |ChartData(schedule)| == |schedule|
    ensures forall i :: 0 <= i < |schedule| ==> ChartData(schedule)[i] == ToPoint(schedule[i])
  {
    AllKept(|schedule|, 0);
  }

  // ---------------------------------------------------------------------------
  // Totals for the pie chart

  /** Array.prototype.reduce with (sum, x) => sum + x: a left fold. */
  function FoldSum(xs: seq<real>, acc: real): real
  {
    if xs == [] then acc else FoldSum(xs[1..], acc + xs[0])
  }

  function TotalPrincipal(schedule: seq<Entry>): real
  {
    FoldSum(Principals(schedule), 0.0)
  }

  function TotalInterest(schedule: seq<Entry>): real
  {
    FoldSum(Interests(schedule), 0.0)
  }

  lemma {:induction false} SumFront(xs: seq<real>)
    requires xs != []
    ensures Sum(xs) == xs[0] + Sum(xs[1..])
  {
    if |xs| > 1 {
      var init := xs[..|xs| - 1];
      SumFront(init);
      assert init[1..] == xs[1..][..|xs[1..]| - 1];
    } else {
      assert xs[1..] == [];
    }
  }

  /** The left fold and the sum agree. */
  lemma {:induction false} FoldSumIsSum(xs: seq<real>, acc: real)
    ensures FoldSum(xs, acc) == acc + Sum(xs)
  {
    if xs != [] {
      FoldSumIsSum(xs[1..], acc + xs[0]);
      SumFront(xs);
    }
  }

  /** The pie chart's totals are the sums over the whole schedule, not over the
      sampled series. */
  lemma ChartTotalsAreSums(schedule: seq<Entry>)
    ensures TotalPrincipal(schedule) == Sum(Principals(schedule))
    ensures TotalInterest(schedule) == Sum(Interests(schedule))
  {
    FoldSumIsSum(Principals(schedule), 0.0);
    FoldSumIsSum(Interests(schedule), 0.0);
  }

  /** For a computed result, the pie chart shows the loan amount as principal
      and the result's total interest as interest. */
  lemma ChartTotalsOfResult(res: LoanResult, loanAmount: real, interestRate: real, loanTerm: int,
                            unit: TermUnit, repayment: RepaymentMethod)
    requires interestRate >= 0.0 && loanTerm >= 1
    requires IsResultFor(res, loanAmount, interestRate, loanTerm, unit, repayment)
    ensures TotalPrincipal(res.schedule) == loanAmount
    ensures TotalInterest(res.schedule) == res.totalInterest
    ensures TotalPrincipal(res.schedule) + TotalInterest(res.schedule) == res.totalPayment
  {
    ChartTotalsAreSums(res.schedule);
    LoanProperties.ResultPaysOff(res, loanAmount, interestRate, loanTerm, unit, repayment);
  }
}

# Loan amortization calculator — a Dafny model

The model covers the computational core of the loan calculator web application:

- **The amortization engine** (`calculateLoan`). It takes a loan amount, an annual interest rate in percent, a term in years or months and a repayment method. It produces a month-by-month ledger, the total interest, the total payment and a headline monthly payment. There are two repayment methods:
  - *equal payment* (annuity): a fixed payment from the standard annuity formula, with a separate zero-rate branch;
  - *equal principal*: the same principal share every month, plus the interest on the remaining balance.
- **The input guard** in the effect that recomputes the result. It only computes something for a positive amount, a non-negative rate and a positive term; otherwise the result is cleared.
- **The chart view's sequence operations.** Downsampling keeps every `floor(n / 50)`-th entry (at least every entry) plus the last one. The pie chart's principal and interest totals are left folds over the whole schedule.
- **The schedule table.** A `Table` class holds the `page` and `rowsPerPage` state and their two change handlers. The visible rows are a slice of the schedule with JavaScript `Array.prototype.slice` semantics.

Amounts are exact `real`s and `Math.pow` is `Pow` over a natural exponent, so every identity holds exactly. Floating-point drift is outside the model.

Files:
- `loan_calculator.dfy` (module `LoanCalculator`): the data model, the ledger specification and the engine. The engine is three methods: the two loops, each proved against the ledger predicate by its invariants, and `CalculateLoan`, which puts them together.
- `loan_properties.dfy` (module `LoanProperties`): what the two methods guarantee. These are payoff, the clamp never engaging, the closed-form annuity balance, monotonicity of the portions, the zero-rate degeneration, total interest, determinism and a concrete scenario.
- `loan_chart.dfy` (module `LoanChart`): downsampling and the pie-chart totals.
- `loan_schedule_table.dfy` (module `LoanScheduleTable`): pagination.

Notation in the table: `n` is the number of months, `r` the monthly rate and `q = 1 + r`.

## Model

| member | source | states |
|---|---|---|
| `LoanCalculator.TotalMonths` | tooliufy-app/src/components/LoanCalculator.jsx:47 | the number of months is 12 times the term for a term in years, and the term itself otherwise; it is at least 1 exactly when the term is |
| `LoanCalculator.MonthlyRate` | tooliufy-app/src/components/LoanCalculator.jsx:45-46 | the monthly rate is the annual percentage divided by 1200 |
| `LoanCalculator.EqualPaymentLedger` | tooliufy-app/src/components/LoanCalculator.jsx:53-77 | the equal-payment loop yields `n` rows with periods 1..n. Each row pays the annuity payment (principal / n at a zero rate); its interest is the balance still owed times the rate, and its principal is the payment less that interest. The reported balance is max(0, loan − principal repaid so far). The accumulated interest is the sum of the rows' interest |
| `LoanCalculator.EqualPrincipalLedger` | tooliufy-app/src/components/LoanCalculator.jsx:78-96 | the equal-principal loop yields `n` ledger rows, each repaying exactly loan / n. Payment is principal plus interest on the balance still owed, the balance is clamped at zero, and the accumulated interest is the sum of the rows' interest |
| `LoanCalculator.CalculateLoan` | tooliufy-app/src/components/LoanCalculator.jsx:43-109 | the result has exactly `totalMonths` rows meeting the ledger specification of the chosen method. Total interest is the sum of the interest portions and total payment is loan + total interest. The headline payment is the annuity payment, or the first row's payment for equal principal |
| `LoanCalculator.Recalculate` | tooliufy-app/src/components/LoanCalculator.jsx:33-40 | a result exists if and only if amount > 0, rate >= 0 and term > 0, and when it exists it is the engine's result for those inputs |
| `LoanProperties.PaymentsSplit` | tooliufy-app/src/components/LoanCalculator.jsx:65-75 | in any ledger the payments sum to the principal portions' sum plus the interest portions' sum |
| `LoanProperties.EqualPrincipalOutstanding` | tooliufy-app/src/components/LoanCalculator.jsx:80-86 | under equal principal, the balance after k months is loan − k · (loan / n) |
| `LoanProperties.EqualPrincipalPaysOff` | tooliufy-app/src/components/LoanCalculator.jsx:80-96 | equal principal repays exactly the loan: the unclamped final balance is 0 and so is the last reported balance. For a non-negative loan, the balance reported after month i + 1 is (n − i − 1) · loan / n, so the clamp never engages |
| `LoanProperties.EqualPrincipalNonIncreasing` | tooliufy-app/src/components/LoanCalculator.jsx:83-86 | with rate >= 0 and loan >= 0, interest and payment never rise from one month to the next |
| `LoanProperties.EqualPrincipalTotalInterest` | tooliufy-app/src/components/LoanCalculator.jsx:84-87 | equal principal's interest over n months sums to r · loan · (n + 1) / 2 |
| `LoanProperties.ZeroRateEqualPayment` | tooliufy-app/src/components/LoanCalculator.jsx:55-56 | at a zero rate the annuity payment is loan / n and every interest portion is 0, so total interest is 0; the schedule is then also an equal-principal schedule |
| `LoanProperties.AnnuityPaymentIdentity` | tooliufy-app/src/components/LoanCalculator.jsx:58-59 | for r > 0 the divisor q^n − 1 is positive, and the payment m satisfies m · (q^n − 1) = loan · r · q^n |
| `LoanProperties.AnnuityRecurrence` | tooliufy-app/src/components/LoanCalculator.jsx:64-68 | with a constant payment m, the balance after k months satisfies b_k · r = loan · r · q^k − m · (q^k − 1) |
| `LoanProperties.EqualPaymentOutstanding` | tooliufy-app/src/components/LoanCalculator.jsx:58-68 | for r > 0, the annuity balance after k months is loan · (q^n − q^k) / (q^n − 1), stated multiplicatively |
| `LoanProperties.EqualPaymentPaysOff` | tooliufy-app/src/components/LoanCalculator.jsx:53-77 | equal payment repays exactly the loan at every rate >= 0: the unclamped final balance is 0 and so is the last reported balance. For a non-negative loan the balance is never negative |
| `LoanProperties.EqualPaymentPrincipalGrows` | tooliufy-app/src/components/LoanCalculator.jsx:64-68 | each month's principal portion is the previous one times q, and its interest is the previous interest less that principal times r |
| `LoanProperties.EqualPaymentInterestFalls` | tooliufy-app/src/components/LoanCalculator.jsx:64-68 | with r > 0 and a positive loan, the interest portion strictly falls and the principal portion strictly rises |
| `LoanProperties.ResultPaysOff` | tooliufy-app/src/components/LoanCalculator.jsx:101-108 | for either method, a computed result has at least one row; its principal portions sum to the loan, its last balance is 0, and its total payment equals the sum of its payments |
| `LoanProperties.ResultDeterministic` | tooliufy-app/src/components/LoanCalculator.jsx:43-109 | any two results meeting the engine's specification for the same inputs are equal |
| `LoanProperties.EqualPrincipalScenario` | tooliufy-app/src/components/LoanCalculator.jsx:26-29 | with the default inputs (1,000,000 at 2.5% for 20 years) repaid in equal principal: 240 months, a headline payment of exactly 6250, a last payment of 1,000,000 · 481 / 115,200 and total interest of 1,000,000 · 241 / 960 |
| `LoanChart.SampleRate` | tooliufy-app/src/components/LoanChart.jsx:48 | the sampling step is at least 1; it is 1 for fewer than 100 entries, and otherwise it is floor(n / 50), stated as 50 · k <= n < 50 · (k + 1) |
| `LoanChart.KeptIndices` | tooliufy-app/src/components/LoanChart.jsx:50 | the filtered indices are strictly increasing and lie in range. An index is among them exactly when it is a multiple of the step or the last index |
| `LoanChart.ChartDataIsSelection` | tooliufy-app/src/components/LoanChart.jsx:49-57 | the chart series has at most as many points as the schedule has entries, and each point copies one schedule entry |
| `LoanChart.ChartPeriodsIncrease` | tooliufy-app/src/components/LoanChart.jsx:49-52 | charting a ledger keeps its order: every point's period lies within 1..n, and the periods strictly increase |
| `LoanChart.ChartDataKeepsEnds` | tooliufy-app/src/components/LoanChart.jsx:50 | for a non-empty schedule, the first point is the first entry and the last point is the last entry |
| `LoanChart.ShortScheduleChartedInFull` | tooliufy-app/src/components/LoanChart.jsx:48-50 | a schedule of fewer than 100 entries is charted in full, entry by entry |
| `LoanChart.FoldSumIsSum` | tooliufy-app/src/components/LoanChart.jsx:60-61 | the left fold used by `reduce` equals the start value plus the sum |
| `LoanChart.ChartTotalsAreSums` | tooliufy-app/src/components/LoanChart.jsx:60-61 | the pie-chart totals are the sums of the principal and interest fields over the whole schedule, not over the sampled series |
| `LoanChart.ChartTotalsOfResult` | tooliufy-app/src/components/LoanChart.jsx:60-61 | for a computed result, the pie chart's principal total is the loan amount and its interest total is the result's total interest; together they make the total payment |
| `LoanScheduleTable.VisibleRows` | tooliufy-app/src/components/LoanScheduleTable.jsx:42-45 | for page >= 0 and size >= 0, a page holds at most `rowsPerPage` rows. They are exactly the entries from `page · rowsPerPage` up to min(n, start + rowsPerPage), in order; a page starting at or past the end is empty |
| `LoanScheduleTable.PagesTile` | tooliufy-app/src/components/LoanScheduleTable.jsx:42-45 | pages 0..k−1 shown in turn are exactly the first min(n, k · rowsPerPage) entries: no entry is skipped or repeated |
| `LoanScheduleTable.AllPagesShowSchedule` | tooliufy-app/src/components/LoanScheduleTable.jsx:42-45 | paging through enough pages shows the whole schedule |
| `LoanScheduleTable.Table.constructor` | tooliufy-app/src/components/LoanScheduleTable.jsx:21-22 | the table starts on page 0 with 12 rows per page, showing the first min(n, 12) entries |
| `LoanScheduleTable.Table.HandleChangePage` | tooliufy-app/src/components/LoanScheduleTable.jsx:24-26 | changing the page sets `page` and leaves `rowsPerPage` unchanged |
| `LoanScheduleTable.Table.HandleChangeRowsPerPage` | tooliufy-app/src/components/LoanScheduleTable.jsx:28-31 | changing the page size sets `rowsPerPage`, resets `page` to 0, and shows the first min(n, size) entries |

## Left out

- Floating point: amounts are exact reals. No claim is made about IEEE-754 rounding or about the final balance being only approximately zero; over the reals it is exactly zero.
- Display rounding and formatting are not modelled: `Math.round` on the chart points and pie values (`LoanChart.jsx:52-56`, `64-65`), the chart's `formatCurrency`, which divides by 10,000 and formats with `toFixed(1)` (`LoanChart.jsx:43-45`), and the table's `formatCurrency` built on `Intl.NumberFormat` (`LoanScheduleTable.jsx:33-40`). `ToPoint` copies the fields unrounded.
- String-to-number coercion (`parseFloat`, `e.target.value`, `parseInt`) is not modelled. Inputs are numbers, and the term is an integer. A fractional term is therefore not modelled, neither in months nor in years: the term field is a free numeric input, so a term of 1.5 years passes the guard and the source computes an 18-month schedule.
- React hooks and re-render scheduling: `Recalculate` models the body of the effect, not when React runs it.
- The chart-type toggle (`LoanChart.jsx:34-40`), the chart rendering, MUI components, sliders and text fields are presentation only.
- `LoanResults.jsx`, `CalculatorPage.jsx`, `HomePage.jsx` and `App.jsx` are not part of this model. The method mapping at `CalculatorPage.jsx:133` becomes the two-constructor `RepaymentMethod`: `'equal-payment'` selects the annuity, and any other value selects equal principal.
- The equal-payment concrete scenario (a payment of about 5299.62) is not proved. It needs the exact value of (481/480)^240. The equal-principal scenario is proved exactly.
- The displayed total count (`LoanScheduleTable.jsx:146`) is `Table.Count`, which is `|schedule|` by definition; it has no separate contract. The table never modifies the schedule because `schedule` is a `const` field.
- `Table.HandleChangePage` accepts any integer; the pagination control's own bounds on `newPage` belong to the widget. `VisibleRows` follows `slice` for every page and size, negative ones included.

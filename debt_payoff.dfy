/**
 * debt_payoff.py: month-by-month amortisation of the total credit-card debt, the sweep over
 * the share of the monthly surplus put towards it, and the guards that decide whether any
 * projection is run at all.
 */
module DebtPayoff {
  import opened Records
  import opened Utils

  /** The shares of the monthly surplus tried as the monthly payment. */
  const PayoffPercentages: seq<real> := [0.25, 0.35, 0.50, 0.60, 0.65, 0.70, 0.75]

  /** 24% a year, charged monthly. */
  const AnnualInterestRate: real := 0.24
  const MonthlyInterestRate: real := AnnualInterestRate / 12.0

  /** `project_payoff`'s default horizon: ten years. */
  const DefaultMaxMonths: int := 120

  // ---------------------------------------------------------------- one month

  /** The balance once the month's interest has been added. */
  function Accrued(balance: real, rate: real): real
  {
    balance + balance * rate
  }

  /** `min(monthly_payment, balance)` after interest: never more than what is owed. */
  function Payment(balance: real, payment: real, rate: real): real
  {
    var owed := Accrued(balance, rate);
    if owed < payment then owed else payment
  }

  /** The balance at the end of a month: interest first, then the payment. */
  function Next(balance: real, payment: real, rate: real): real
  {
    Accrued(balance, rate) - Payment(balance, payment, rate)
  }

  /**
   * The payment is the smaller of the payment due and what is owed, so the month closes at what
   * is owed less the payment when that is positive, and at zero otherwise.
   */
  lemma NextCloses(balance: real, payment: real, rate: real)
    ensures var pay := Payment(balance, payment, rate);
      pay <= Accrued(balance, rate) && pay <= payment && (pay == payment || pay == Accrued(balance, rate))
    ensures var next := Next(balance, payment, rate);
      next >= 0.0 && next == if Accrued(balance, rate) > payment then Accrued(balance, rate) - payment else 0.0
  {
  }

  // ---------------------------------------------------------------- the whole projection

  /** The balance after k months of payments, ignoring the stop at payoff. */
  function Balance(debt: real, payment: real, rate: real, k: nat): real
  {
    if k == 0 then debt else Next(Balance(debt, payment, rate, k - 1), payment, rate)
  }

  /** The interest charged over the first k months. */
  function InterestUpTo(debt: real, payment: real, rate: real, k: nat): real
  {
    if k == 0 then 0.0 else InterestUpTo(debt, payment, rate, k - 1) + Balance(debt, payment, rate, k - 1) * rate
  }

  /** The payments made over the first k months. */
  function PaidUpTo(debt: real, payment: real, rate: real, k: nat): real
  {
    if k == 0 then 0.0 else PaidUpTo(debt, payment, rate, k - 1) + Payment(Balance(debt, payment, rate, k - 1), payment, rate)
  }

  /**
   * The month at which the loop over months `from`, `from + 1`, … ends: the first whose closing
   * balance is not positive, or the last month of the horizon.
   */
  function StopMonth(debt: real, payment: real, rate: real, maxMonths: int, from: nat): (m: nat)
    requires from >= 1
    ensures from - 1 <= m
    ensures m <= if maxMonths < from then from - 1 else maxMonths
    decreases maxMonths - from
  {
    if from > maxMonths then from - 1
    else if Balance(debt, payment, rate, from) <= 0.0 then from
    else StopMonth(debt, payment, rate, maxMonths, from + 1)
  }

  /** The months `project_payoff` runs. */
  function Months(debt: real, payment: real, rate: real, maxMonths: int): nat
  {
    StopMonth(debt, payment, rate, maxMonths, 1)
  }

  /** (0, debt), (1, balance after month 1), …, (k, balance after month k). */
  function Timeline(debt: real, payment: real, rate: real, k: nat): (t: seq<(int, real)>)
    ensures |t| == k + 1
    ensures forall i :: 0 <= i <= k ==> t[i] == (i, Balance(debt, payment, rate, i))
  {
    if k == 0 then [(0, debt)] else Timeline(debt, payment, rate, k - 1) + [(k, Balance(debt, payment, rate, k))]
  }

  /** The dictionary `project_payoff` returns. */
  datatype Projection = Projection(
    timeline: seq<(int, real)>,
    totalInterest: real,
    totalPaid: real,
    months: nat,
    paidOff: bool)

  /** The projection, month by month until payoff or the end of the horizon. */
  function Projected(debt: real, payment: real, rate: real, maxMonths: int): Projection
  {
    var n := Months(debt, payment, rate, maxMonths);
    Projection(
      Timeline(debt, payment, rate, n),
      InterestUpTo(debt, payment, rate, n),
      PaidUpTo(debt, payment, rate, n),
      n,
      Balance(debt, payment, rate, n) <= 0.0)
  }

  /**
   * `project_payoff`: each month adds the interest on the balance, then takes the payment
   * (capped at what is owed), and records the closing balance; the loop ends after the first
   * month that closes at or below zero, or after `max_months` months.
   */
  method ProjectPayoff(debt: real, payment: real, rate: real, maxMonths: int) returns (res: Projection)
    ensures res == Projected(debt, payment, rate, maxMonths)
  {
    var balance := debt;
    var timeline := [(0, balance)];
    var totalInterest := 0.0;
    var totalPaid := 0.0;
    var month := 1;
    ghost var n := Months(debt, payment, rate, maxMonths);
    while month <= maxMonths
      invariant 1 <= month && |timeline| == month
      invariant balance == Balance(debt, payment, rate, month - 1)
      invariant timeline == Timeline(debt, payment, rate, month - 1)
      invariant totalInterest == InterestUpTo(debt, payment, rate, month - 1)
      invariant totalPaid == PaidUpTo(debt, payment, rate, month - 1)
      invariant n == StopMonth(debt, payment, rate, maxMonths, month)
      decreases maxMonths - month
    {
      ghost var k: nat := month - 1;
      ghost var opening := balance;
      MonthClose(debt, payment, rate, k, balance, totalInterest, totalPaid);
      var interest := balance * rate;
      balance := balance + interest;
      totalInterest := totalInterest + interest;

      var pay := if balance < payment then balance else payment;
      balance := balance - pay;
      totalPaid := totalPaid + pay;
      timeline := timeline + [(month, balance)];
      assert k + 1 == month;
      assert balance == Balance(debt, payment, rate, k + 1);
      assert totalInterest == InterestUpTo(debt, payment, rate, k + 1);
      assert totalPaid == PaidUpTo(debt, payment, rate, k + 1);
      assert timeline == Timeline(debt, payment, rate, k + 1);

      if balance <= 0.0 {
        assert n == month;
        break;
      }
      month := month + 1;
    }
    assert n == |timeline| - 1;
    assert balance == Balance(debt, payment, rate, n);
    assert timeline == Timeline(debt, payment, rate, n);
    assert totalInterest == InterestUpTo(debt, payment, rate, n);
    assert totalPaid == PaidUpTo(debt, payment, rate, n);
    res := Projection(timeline, totalInterest, totalPaid, |timeline| - 1, balance <= 0.0);
  }

  /** What one more month adds to the balance, the interest and the payments. */
  lemma Advance(debt: real, payment: real, rate: real, k: nat)
    ensures Balance(debt, payment, rate, k + 1) == Next(Balance(debt, payment, rate, k), payment, rate)
    ensures InterestUpTo(debt, payment, rate, k + 1) == InterestUpTo(debt, payment, rate, k) + Balance(debt, payment, rate, k) * rate
    ensures PaidUpTo(debt, payment, rate, k + 1) == PaidUpTo(debt, payment, rate, k) + Payment(Balance(debt, payment, rate, k), payment, rate)
  {
  }

  /** One pass of the loop body, in the loop's own terms, takes month k's running values to month k + 1's. */
  lemma MonthClose(debt: real, payment: real, rate: real, k: nat, balance: real, interestSoFar: real, paidSoFar: real)
    requires balance == Balance(debt, payment, rate, k)
    requires interestSoFar == InterestUpTo(debt, payment, rate, k)
    requires paidSoFar == PaidUpTo(debt, payment, rate, k)
    ensures var interest := balance * rate;
      var owed := balance + interest;
      var pay := if owed < payment then owed else payment;
      && owed - pay == Balance(debt, payment, rate, k + 1)
      && interestSoFar + interest == InterestUpTo(debt, payment, rate, k + 1)
      && paidSoFar + pay == PaidUpTo(debt, payment, rate, k + 1)
  {
    assert Accrued(balance, rate) == balance + balance * rate;
    Advance(debt, payment, rate, k);
  }


  // ---------------------------------------------------------------- what the projection promises

  /**
   * The timeline starts with the debt at month 0 and numbers the months consecutively; `months`
   * is its length less one, and the debt counts as paid off exactly when the last balance is not positive.
   */
  lemma ProjectionShape(debt: real, payment: real, rate: real, maxMonths: int)
    ensures var p := Projected(debt, payment, rate, maxMonths);
      && p.months == |p.timeline| - 1
      && p.timeline[0] == (0, debt)
      && (forall i :: 0 <= i < |p.timeline| ==> p.timeline[i].0 == i)
      && (p.paidOff <==> p.timeline[|p.timeline| - 1].1 <= 0.0)
  {
  }

  /** The timeline stops at the horizon, and every month before the last closes owing money. */
  lemma {:induction false} StopMonthFacts(debt: real, payment: real, rate: real, maxMonths: int, from: nat)
    requires from >= 1
    ensures var m := StopMonth(debt, payment, rate, maxMonths, from);
      && (forall j :: from <= j < m ==> Balance(debt, payment, rate, j) > 0.0)
      && (Balance(debt, payment, rate, m) > 0.0 && m >= from ==> m == maxMonths)
      && (m == from - 1 ==> maxMonths < from)
    decreases maxMonths - from
  {
    if from <= maxMonths && Balance(debt, payment, rate, from) > 0.0 {
      StopMonthFacts(debt, payment, rate, maxMonths, from + 1);
    }
  }

  /**
   * The months never exceed the horizon; every month before the last closes with a positive
   * balance; and the debt is not paid off only when the whole horizon has been used.
   */
  lemma ProjectionStops(debt: real, payment: real, rate: real, maxMonths: int)
    ensures var p := Projected(debt, payment, rate, maxMonths);
      && p.months <= (if maxMonths < 0 then 0 else maxMonths)
      && (forall i :: 1 <= i < p.months ==> p.timeline[i].1 > 0.0)
      && (!p.paidOff ==> p.months == (if maxMonths < 0 then 0 else maxMonths))
  {
    StopMonthFacts(debt, payment, rate, maxMonths, 1);
  }

  /** After the first month no balance is negative: the payment never exceeds what is owed. */
  lemma ProjectionNonNegative(debt: real, payment: real, rate: real, maxMonths: int)
    ensures var p := Projected(debt, payment, rate, maxMonths);
      forall i :: 1 <= i < |p.timeline| ==> p.timeline[i].1 >= 0.0
  {
  }

  /** Conservation over k months: what was paid is the debt plus the interest minus what is still owed. */
  lemma {:induction false} Conservation(debt: real, payment: real, rate: real, k: nat)
    ensures PaidUpTo(debt, payment, rate, k) == debt + InterestUpTo(debt, payment, rate, k) - Balance(debt, payment, rate, k)
  {
    if k > 0 {
      Conservation(debt, payment, rate, k - 1);
      MonthClose(debt, payment, rate, k - 1,
        Balance(debt, payment, rate, k - 1), InterestUpTo(debt, payment, rate, k - 1), PaidUpTo(debt, payment, rate, k - 1));
    }
  }

  /** `total_paid == total_cc_debt + total_interest - final balance`. */
  lemma ProjectionConserves(debt: real, payment: real, rate: real, maxMonths: int)
    ensures var p := Projected(debt, payment, rate, maxMonths);
      p.totalPaid == debt + p.totalInterest - p.timeline[p.months].1
  {
    Conservation(debt, payment, rate, Months(debt, payment, rate, maxMonths));
  }

  /** The bound `BalanceFalls` keeps: the debt less k margins, never below zero. */
  function FallBound(debt: real, margin: real, k: nat): (bound: real)
    requires debt >= 0.0
    ensures bound >= 0.0
  {
    if k == 0 then debt
    else
      var prev := FallBound(debt, margin, k - 1);
      if prev - margin > 0.0 then prev - margin else 0.0
  }

  /** The bound in closed form, for a positive margin. */
  lemma {:induction false} FallBoundClosed(debt: real, margin: real, k: nat)
    requires debt >= 0.0 && margin > 0.0
    ensures var fall := debt - (k as real) * margin;
      FallBound(debt, margin, k) == if fall > 0.0 then fall else 0.0
  {
    if k > 0 {
      FallBoundClosed(debt, margin, k - 1);
      FallShift(debt, margin, k);
    }
  }

  lemma FallShift(debt: real, margin: real, k: nat)
    requires k > 0
    ensures debt - (k as real) * margin == (debt - ((k - 1) as real) * margin) - margin
  {
  }

  /** Month by month the balance stays between zero and the debt and under the falling bound. */
  lemma {:induction false} UnderFallBound(debt: real, payment: real, rate: real, k: nat)
    requires rate >= 0.0 && debt > 0.0 && payment > debt * rate
    ensures 0.0 <= Balance(debt, payment, rate, k) <= debt
    ensures Balance(debt, payment, rate, k) <= FallBound(debt, payment - debt * rate, k)
  {
    if k > 0 {
      UnderFallBound(debt, payment, rate, k - 1);
      FallStep(Balance(debt, payment, rate, k - 1), debt, payment, rate, FallBound(debt, payment - debt * rate, k - 1));
    }
  }

  /**
   * With a non-negative rate and a positive debt, a payment above the first month's interest
   * lowers the balance by at least the margin every month until it is cleared.
   */
  lemma BalanceFalls(debt: real, payment: real, rate: real, k: nat)
    requires rate >= 0.0 && debt > 0.0 && payment > debt * rate
    ensures 0.0 <= Balance(debt, payment, rate, k) <= debt
    ensures var fall := debt - (k as real) * (payment - debt * rate);
      Balance(debt, payment, rate, k) <= (if fall > 0.0 then fall else 0.0)
  {
    UnderFallBound(debt, payment, rate, k);
    FallBoundClosed(debt, payment - debt * rate, k);
  }

  /** One month of `BalanceFalls`: a balance under the bound closes under the bound less the margin. */
  lemma FallStep(b: real, debt: real, payment: real, rate: real, bound: real)
    requires rate >= 0.0 && payment > debt * rate && 0.0 <= b <= debt
    requires b <= (if bound > 0.0 then bound else 0.0)
    ensures 0.0 <= Next(b, payment, rate) <= debt
    ensures var fall := bound - (payment - debt * rate);
      Next(b, payment, rate) <= (if fall > 0.0 then fall else 0.0)
  {
    NextCloses(b, payment, rate);
    ScaleMono(b, debt, rate);
  }

  /** Interest grows with the balance: scaling by a non-negative rate keeps the order. */
  lemma ScaleMono(x: real, y: real, r: real)
    requires x <= y && r >= 0.0
    ensures x * r <= y * r
  {
    var d := y - x;
    assert d * r >= 0.0;
    assert y * r == x * r + d * r;
  }

  /** Once a month closes at or below zero within the horizon, the loop stops there or earlier. */
  lemma {:induction false} StopsBy(debt: real, payment: real, rate: real, maxMonths: int, from: nat, n: nat)
    requires 1 <= from <= n <= maxMonths && Balance(debt, payment, rate, n) <= 0.0
    ensures StopMonth(debt, payment, rate, maxMonths, from) <= n
    ensures Balance(debt, payment, rate, StopMonth(debt, payment, rate, maxMonths, from)) <= 0.0
    decreases n - from
  {
    if Balance(debt, payment, rate, from) > 0.0 {
      StopsBy(debt, payment, rate, maxMonths, from + 1, n);
    }
  }

  /**
   * Payoff: with a non-negative rate and a positive debt, a payment exceeding the first month's
   * interest clears the debt within n months whenever n margins cover the debt and n months fit
   * in the horizon.
   */
  lemma PaysOff(debt: real, payment: real, rate: real, maxMonths: int, n: nat)
    requires rate >= 0.0 && debt > 0.0 && payment > debt * rate
    requires 1 <= n <= maxMonths && (n as real) * (payment - debt * rate) >= debt
    ensures Projected(debt, payment, rate, maxMonths).paidOff
    ensures Projected(debt, payment, rate, maxMonths).months <= n
  {
    BalanceFalls(debt, payment, rate, n);
    StopsBy(debt, payment, rate, maxMonths, 1, n);
  }

  /** A payment that never exceeds what the debt itself earns in interest keeps the balance at or above the debt. */
  lemma {:induction false} BalanceNeverFalls(debt: real, payment: real, rate: real, k: nat)
    requires rate >= 0.0 && debt > 0.0 && payment <= debt * rate
    ensures Balance(debt, payment, rate, k) >= debt
  {
    if k > 0 {
      BalanceNeverFalls(debt, payment, rate, k - 1);
      NeverFallsStep(Balance(debt, payment, rate, k - 1), debt, payment, rate);
    }
  }

  /** One month from a balance at or above the debt: its interest covers the payment, so the balance does not fall. */
  lemma NeverFallsStep(b: real, debt: real, payment: real, rate: real)
    requires rate >= 0.0 && debt > 0.0 && payment <= debt * rate && b >= debt
    ensures Next(b, payment, rate) >= b
  {
    ScaleMono(debt, b, rate);
    assert Accrued(b, rate) - payment >= b;
  }

  /** Non-convergence: such a payment never pays the debt off, and the whole horizon is projected. */
  lemma NeverPaysOff(debt: real, payment: real, rate: real, maxMonths: int)
    requires rate >= 0.0 && debt > 0.0 && payment <= debt * rate
    ensures !Projected(debt, payment, rate, maxMonths).paidOff
    ensures Projected(debt, payment, rate, maxMonths).months == (if maxMonths < 0 then 0 else maxMonths)
  {
    BalanceNeverFalls(debt, payment, rate, Months(debt, payment, rate, maxMonths));
    ProjectionStops(debt, payment, rate, maxMonths);
  }

  // ---------------------------------------------------------------- a larger payment

  /** A month's closing balance grows with its opening balance and shrinks as the payment grows. */
  lemma NextMono(b1: real, b2: real, p1: real, p2: real, rate: real)
    requires rate >= 0.0 && b2 <= b1 && p1 <= p2
    ensures Next(b2, p2, rate) <= Next(b1, p1, rate)
  {
    ScaleMono(b2, b1, rate);
    NextCloses(b1, p1, rate);
    NextCloses(b2, p2, rate);
  }

  /** Month by month, the larger payment never leaves more owing than the smaller one. */
  lemma {:induction false} BalanceMono(debt: real, p1: real, p2: real, rate: real, k: nat)
    requires rate >= 0.0 && p1 <= p2
    ensures Balance(debt, p2, rate, k) <= Balance(debt, p1, rate, k)
  {
    if k > 0 {
      BalanceMono(debt, p1, p2, rate, k - 1);
      NextMono(Balance(debt, p1, rate, k - 1), Balance(debt, p2, rate, k - 1), p1, p2, rate);
    }
  }

  /** Over the same months, the larger payment accrues no more interest. */
  lemma {:induction false} InterestMono(debt: real, p1: real, p2: real, rate: real, k: nat)
    requires rate >= 0.0 && p1 <= p2
    ensures InterestUpTo(debt, p2, rate, k) <= InterestUpTo(debt, p1, rate, k)
  {
    if k > 0 {
      var j := k - 1;
      InterestMono(debt, p1, p2, rate, j);
      BalanceMono(debt, p1, p2, rate, j);
      var i1, i2 := InterestUpTo(debt, p1, rate, j), InterestUpTo(debt, p2, rate, j);
      var b1, b2 := Balance(debt, p1, rate, j), Balance(debt, p2, rate, j);
      InterestAt(debt, p1, rate, k, i1, b1);
      InterestAt(debt, p2, rate, k, i2, b2);
      InterestStep(InterestUpTo(debt, p1, rate, k), InterestUpTo(debt, p2, rate, k), i1, i2, b1, b2, rate);
    }
  }

  /** Month k's running interest total, from month k - 1's total and balance. */
  lemma InterestAt(debt: real, payment: real, rate: real, k: nat, interestSoFar: real, balance: real)
    requires k > 0
    requires interestSoFar == InterestUpTo(debt, payment, rate, k - 1)
    requires balance == Balance(debt, payment, rate, k - 1)
    ensures InterestUpTo(debt, payment, rate, k) == interestSoFar + balance * rate
  {
  }

  /** A month's interest keeps the order of the running totals when it keeps the order of the balances. */
  lemma InterestStep(t1: real, t2: real, i1: real, i2: real, b1: real, b2: real, rate: real)
    requires t1 == i1 + b1 * rate && t2 == i2 + b2 * rate
    requires i2 <= i1 && b2 <= b1 && rate >= 0.0
    ensures t2 <= t1
  {
    ScaleMono(b2, b1, rate);
    var c1, c2 := b1 * rate, b2 * rate;
    assert c2 <= c1;
    assert i2 + c2 <= i1 + c1;
  }

  /** From month 1 on, balances are not negative, so the interest charged only accumulates. */
  lemma {:induction false} InterestGrows(debt: real, payment: real, rate: real, m: nat, n: nat)
    requires rate >= 0.0 && 1 <= m <= n
    ensures InterestUpTo(debt, payment, rate, m) <= InterestUpTo(debt, payment, rate, n)
    decreases n - m
  {
    if m < n {
      InterestGrows(debt, payment, rate, m, n - 1);
      NextCloses(Balance(debt, payment, rate, n - 2), payment, rate);
      ScaleMono(0.0, Balance(debt, payment, rate, n - 1), rate);
    }
  }

  /**
   * Payoff monotonicity: for the same debt, rate and horizon, a larger monthly payment never takes
   * more months and never costs more interest.
   */
  lemma PayoffMonotone(debt: real, p1: real, p2: real, rate: real, maxMonths: int)
    requires rate >= 0.0 && p1 <= p2
    ensures Projected(debt, p2, rate, maxMonths).months <= Projected(debt, p1, rate, maxMonths).months
    ensures Projected(debt, p2, rate, maxMonths).totalInterest <= Projected(debt, p1, rate, maxMonths).totalInterest
  {
    var m1 := Months(debt, p1, rate, maxMonths);
    var m2 := Months(debt, p2, rate, maxMonths);
    ProjectionStops(debt, p1, rate, maxMonths);
    ProjectionStops(debt, p2, rate, maxMonths);
    StopMonthFacts(debt, p1, rate, maxMonths, 1);
    StopMonthFacts(debt, p2, rate, maxMonths, 1);
    if 1 <= m1 && Balance(debt, p1, rate, m1) <= 0.0 {
      BalanceMono(debt, p1, p2, rate, m1);
      StopsBy(debt, p2, rate, maxMonths, 1, m1);
    }
    assert m2 <= m1;
    InterestMono(debt, p1, p2, rate, m1);
    if m2 < m1 {
      InterestGrows(debt, p2, rate, m2, m1);
    }
  }

  // ---------------------------------------------------------------- the scenario sweep

  /** One row of the scenario table: the share of the surplus, the payment, and its projection. */
  datatype Scenario = Scenario(percentage: real, monthlyPayment: real, result: Projection)

  /** The row for one share of the surplus: the payment is that share, projected at the default rate and horizon. */
  function ScenarioFor(debt: real, surplus: real, pct: real): Scenario
  {
    Scenario(pct, surplus * pct, Projected(debt, surplus * pct, MonthlyInterestRate, DefaultMaxMonths))
  }

  /** The rows for the given shares of the surplus, in order. */
  function Sweep(debt: real, surplus: real, percentages: seq<real>): (rows: seq<Scenario>)
    ensures |rows| == |percentages|
  {
    if percentages == [] then []
    else Sweep(debt, surplus, percentages[..|percentages| - 1]) + [ScenarioFor(debt, surplus, percentages[|percentages| - 1])]
  }

  /** Every row of the sweep is the projection of its own share: no row depends on another. */
  lemma {:induction false} SweepRows(debt: real, surplus: real, percentages: seq<real>)
    ensures forall i :: 0 <= i < |percentages| ==> Sweep(debt, surplus, percentages)[i] == ScenarioFor(debt, surplus, percentages[i])
  {
    if percentages != [] {
      var init := percentages[..|percentages| - 1];
      SweepRows(debt, surplus, init);
      assert forall i :: 0 <= i < |init| ==> percentages[i] == init[i];
    }
  }

  /**
   * The sweep over the shares of the surplus (`PAYOFF_PERCENTAGES` at the call site): each
   * share is projected on its own.
   */
  method RunScenarios(debt: real, surplus: real, percentages: seq<real>) returns (rows: seq<Scenario>)
    ensures rows == Sweep(debt, surplus, percentages)
  {
    rows := [];
    var i := 0;
    while i < |percentages|
      invariant 0 <= i <= |percentages|
      invariant rows == Sweep(debt, surplus, percentages[..i])
    {
      var row := ProjectScenario(debt, surplus, percentages[i]);
      assert percentages[..i + 1][..i] == percentages[..i];
      rows := rows + [row];
      i := i + 1;
    }
    assert percentages[..i] == percentages;
  }

  /** One pass of the sweep: the payment is the share of the surplus, projected at the default rate and horizon. */
  method ProjectScenario(debt: real, surplus: real, pct: real) returns (row: Scenario)
    ensures row == ScenarioFor(debt, surplus, pct)
  {
    var monthlyPayment := surplus * pct;
    var result := ProjectPayoff(debt, monthlyPayment, MonthlyInterestRate, DefaultMaxMonths);
    row := Scenario(pct, monthlyPayment, result);
  }

  // ---------------------------------------------------------------- the caller's guards

  /** `abs(acc.get('currentBalance', 0) or 0)` */
  function Owed(a: Account): (owed: real)
    ensures owed >= 0.0
  {
    var b := a.currentBalance.GetOr(0.0);
    if b < 0.0 then -b else b
  }

  /** The total credit-card debt: the sum of the absolute balances of the given accounts. */
  function TotalOwed(accounts: seq<Account>): (total: real)
    ensures total >= 0.0
    ensures total == 0.0 <==> forall a :: a in accounts ==> Owed(a) == 0.0
  {
    if accounts == [] then 0.0 else Owed(accounts[0]) + TotalOwed(accounts[1..])
  }

  /** What `run_debt_payoff` ends with once the inputs are in. */
  datatype PayoffPlan =
    | NoSurplus(surplus: real)  // "No surplus available for debt payoff"
    | NoDebt                    // "No credit card debt to pay off"
    | Plan(totalDebt: real, surplus: real, scenarios: seq<Scenario>)

  /**
   * The guards of `run_debt_payoff`: the surplus is starting cash plus planned income minus
   * planned expenses; nothing is projected when it is not positive, or (checked second) when the
   * credit-card accounts owe nothing; otherwise every scenario is run on the total debt.
   */
  method PlanPayoff(accounts: seq<Account>, startingCash: real, budget: BudgetTotals) returns (plan: PayoffPlan)
    ensures var surplus := startingCash + budget.totalIncome - budget.totalExpenses;
      && (surplus <= 0.0 <==> plan.NoSurplus?)
      && (plan.NoSurplus? ==> plan.surplus == surplus)
      && (plan.NoDebt? <==> surplus > 0.0 && forall a :: a in accounts && IsCreditAccount(a) ==> Owed(a) == 0.0)
      && (plan.Plan? ==> plan.totalDebt == TotalOwed(CreditAccounts(accounts)) && plan.totalDebt > 0.0 && plan.surplus == surplus)
      && (plan.Plan? ==> plan.scenarios == Sweep(plan.totalDebt, plan.surplus, PayoffPercentages))
  {
    var ccAccounts := CreditAccounts(accounts);
    CreditAccountsMembers(accounts);
    var totalDebt := TotalOwed(ccAccounts);
    var surplus := startingCash + budget.totalIncome - budget.totalExpenses;
    if surplus <= 0.0 {
      return NoSurplus(surplus);
    }
    if totalDebt <= 0.0 {
      return NoDebt;
    }
    var scenarios := RunScenarios(totalDebt, surplus, PayoffPercentages);
    return Plan(totalDebt, surplus, scenarios);
  }

  /** With a positive surplus and positive shares, every scenario pays something each month. */
  lemma {:induction false} SweepPaysSomething(debt: real, surplus: real, percentages: seq<real>)
    requires surplus > 0.0 && forall i :: 0 <= i < |percentages| ==> percentages[i] > 0.0
    ensures forall i :: 0 <= i < |percentages| ==> Sweep(debt, surplus, percentages)[i].monthlyPayment > 0.0
  {
    SweepRows(debt, surplus, percentages);
    forall i | 0 <= i < |percentages|
      ensures Sweep(debt, surplus, percentages)[i].monthlyPayment > 0.0
    {
      ScenarioPays(debt, surplus, percentages[i]);
    }
  }

  /** A positive share of a positive surplus is a positive payment. */
  lemma ScenarioPays(debt: real, surplus: real, pct: real)
    requires surplus > 0.0 && pct > 0.0
    ensures ScenarioFor(debt, surplus, pct).monthlyPayment > 0.0
  {
    PositiveProduct(surplus, pct);
  }

  lemma PositiveProduct(a: real, b: real)
    requires a > 0.0 && b > 0.0
    ensures a * b > 0.0
  {
  }

  /** Every share of the surplus the sweep tries is positive, so a planned scenario always pays something. */
  lemma PlannedScenariosPay(debt: real, surplus: real)
    requires surplus > 0.0
    ensures forall i :: 0 <= i < |PayoffPercentages| ==> Sweep(debt, surplus, PayoffPercentages)[i].monthlyPayment > 0.0
  {
    SweepPaysSomething(debt, surplus, PayoffPercentages);
  }
}

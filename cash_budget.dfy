/**
 * cash_budget.py: which month is analysed, and the cash balance at its start and end read off the
 * service's dated aggregate snapshots. Its `parse_month` is the same code as `Utils.ParseMonth`.
 */
module CashBudget {
  import opened Results
  import opened Text
  import opened Dates
  import opened Records
  import opened Utils
  import opened StableSort

  // ---------------------------------------------------------------- the month analysed

  /**
   * `parse_month(month)` when a month string is given (an empty one counts as not given), and
   * otherwise the previous month of `today`.
   */
  function SelectMonth(month: Option<string>, today: Date): (r: Result<MonthSpan>)
    requires ValidDate(today)
    ensures month.Some? && month.value != "" ==> r == ParseMonth(month.value)
    ensures (month.None? || month.value == "") ==> r == GetPreviousMonthRange(today)
  {
    if month.Some? && month.value != "" then ParseMonth(month.value) else GetPreviousMonthRange(today)
  }

  /** Whichever way it is chosen, the month analysed runs from its first day to its last. */
  lemma SelectedMonthIsWhole(month: Option<string>, today: Date)
    requires ValidDate(today)
    ensures var r := SelectMonth(month, today);
      r.Ok? ==> && ValidDate(r.value.start) && r.value.start.day == 1
                && r.value.end == LastDayOfMonth(r.value.start.year, r.value.start.month)
  {
    var r := SelectMonth(month, today);
    if !(month.Some? && month.value != "") && r.Ok? {
      var (y, m) := PrevMonth(today.year, today.month);
      assert r == MonthRange(y, m);
    }
  }

  /** The default month never reaches into the current one: it ends on the day before the first of today's month. */
  lemma DefaultMonthEndsBeforeToday(today: Date)
    requires ValidDate(today)
    ensures var r := SelectMonth(None, today);
      r.Ok? ==> NextDay(r.value.end) == Date(today.year, today.month, 1)
  {
  }

  // ---------------------------------------------------------------- parse_cash_balances

  /** A start or end date: the `datetime` passed in, or a 'YYYY-MM-DD' string. */
  datatype DateField = DateValue(date: Date) | DateString(text: string)

  /** The dictionary `parse_cash_balances` returns. */
  datatype CashBalances = CashBalances(startBalance: Option<real>, endBalance: Option<real>, startDate: DateField, endDate: DateField)

  /** The sort key `x.get('date', '')`. */
  function DateKey(s: Snapshot): string
  {
    s.date.GetOr("")
  }

  /** Snapshots ordered by date text, as Python compares strings. */
  predicate ByDate(a: Snapshot, b: Snapshot)
  {
    StrLe(DateKey(a), DateKey(b))
  }

  lemma ByDateIsPreorder()
    ensures TotalPreorder(ByDate)
  {
    forall a: Snapshot, b: Snapshot
      ensures ByDate(a, b) || ByDate(b, a)
    {
      StrLeTotal(DateKey(a), DateKey(b));
    }
    forall a: Snapshot, b: Snapshot, c: Snapshot | ByDate(a, b) && ByDate(b, c)
      ensures ByDate(a, c)
    {
      StrLeTransitive(DateKey(a), DateKey(b), DateKey(c));
    }
  }

  /** `actual or fallback`: a missing or empty snapshot date falls back to the requested date, formatted. */
  function DateOr(actual: Option<string>, fallback: Date): (s: string)
    requires ValidDate(fallback)
    ensures actual.Some? && actual.value != "" ==> s == actual.value
    ensures actual.None? || actual.value == "" ==> s == IsoDate(fallback)
  {
    if actual.Some? && actual.value != "" then actual.value else IsoDate(fallback)
  }

  /**
   * `parse_cash_balances`: with no snapshots both balances are unknown and the requested dates are
   * passed through; otherwise the snapshots are sorted by date (into a new list) and the first and
   * last give the balances and, when present, the dates.
   */
  function ParseCashBalances(snapshots: seq<Snapshot>, startDate: Date, endDate: Date): (r: CashBalances)
    requires ValidDate(startDate) && ValidDate(endDate)
    ensures snapshots == [] ==> r == CashBalances(None, None, DateValue(startDate), DateValue(endDate))
    ensures snapshots != [] ==> r.startDate.DateString? && r.endDate.DateString?
  {
    if snapshots == [] then CashBalances(None, None, DateValue(startDate), DateValue(endDate))
    else
      var sorted := SortBy(snapshots, ByDate);
      var first, last := sorted[0], sorted[|sorted| - 1];
      CashBalances(first.balance, last.balance, DateString(DateOr(first.date, startDate)), DateString(DateOr(last.date, endDate)))
  }

  /**
   * The start balance is that of an earliest-dated snapshot (the first of them in input order) and
   * the end balance that of a latest-dated one (the last of them); the dates come from the same two
   * snapshots, or fall back to the requested dates.
   */
  lemma EarliestAndLatest(snapshots: seq<Snapshot>, startDate: Date, endDate: Date) returns (i: nat, j: nat)
    requires ValidDate(startDate) && ValidDate(endDate) && snapshots != []
    ensures i < |snapshots| && j < |snapshots|
    ensures var r := ParseCashBalances(snapshots, startDate, endDate);
      && r.startBalance == snapshots[i].balance && r.endBalance == snapshots[j].balance
      && r.startDate == DateString(DateOr(snapshots[i].date, startDate))
      && r.endDate == DateString(DateOr(snapshots[j].date, endDate))
    ensures forall k :: 0 <= k < |snapshots| ==> StrLe(DateKey(snapshots[i]), DateKey(snapshots[k]))
    ensures forall k :: 0 <= k < |snapshots| ==> StrLe(DateKey(snapshots[k]), DateKey(snapshots[j]))
    ensures forall k :: 0 <= k < i ==> DateKey(snapshots[k]) != DateKey(snapshots[i])
    ensures forall k :: j < k < |snapshots| ==> DateKey(snapshots[k]) != DateKey(snapshots[j])
  {
    ByDateIsPreorder();
    i := SortByHead(snapshots, ByDate);
    j := SortByLast(snapshots, ByDate);
    forall k | 0 <= k < i
      ensures DateKey(snapshots[k]) != DateKey(snapshots[i])
    {
      StrLeReflexive(DateKey(snapshots[i]));
    }
    forall k | j < k < |snapshots|
      ensures DateKey(snapshots[k]) != DateKey(snapshots[j])
    {
      StrLeReflexive(DateKey(snapshots[j]));
    }
  }

  /** With a single snapshot the start and end balances are the same, namely its balance. */
  lemma SingleSnapshot(s: Snapshot, startDate: Date, endDate: Date)
    requires ValidDate(startDate) && ValidDate(endDate)
    ensures var r := ParseCashBalances([s], startDate, endDate);
      r.startBalance == r.endBalance == s.balance
  {
    assert SortBy([s], ByDate) == [s];
  }
}

/**
 * budget_forecast.py: the month's budget response reduced to the planned totals and the
 * categories with money planned for them, and the cash expected at the end of the month.
 * Its `parse_month` and `format_currency` are the same code as the shared helpers
 * (`Utils.ParseMonth`, and `Utils.FormatCurrency` with the sign off).
 */
module BudgetForecast {
  import opened Results
  import opened Records
  import opened Utils
  import opened StableSort

  /** A kept category: {'name': …, 'group': …, 'planned': …}. */
  datatype Entry = Entry(name: string, group: string, planned: real)

  /** The dictionary `parse_budget_data` returns. */
  datatype Forecast = Forecast(totalIncome: real, totalExpenses: real, incomeCategories: seq<Entry>, expenseCategories: seq<Entry>)

  /** `amounts.get('plannedCashFlowAmount', 0)` */
  function PlannedOf(m: MonthlyAmount): real
  {
    m.plannedCashFlowAmount.GetOr(0.0)
  }

  /** The entry built for a category with planned amount `planned`; missing names read 'Unknown' and 'Other'. */
  function EntryOf(c: CategoryAmounts, planned: real): (e: Entry)
    ensures e.planned == planned
  {
    Entry(CategoryName(c), CategoryGroupName(c), planned)
  }

  /** The category is appended to the list for group type t: money is planned for it and its group has that type. */
  predicate Keeps(c: CategoryAmounts, t: string)
  {
    FirstMonthlyAmount(c).Ok? && PlannedOf(FirstMonthlyAmount(c).value) > 0.0 && CategoryGroupType(c) == t
  }

  /** The entries appended for group type t, in input order, before sorting. */
  function Selected(cs: seq<CategoryAmounts>, t: string): (es: seq<Entry>)
    ensures |es| <= |cs|
    ensures forall e :: e in es ==> e.planned > 0.0
    ensures forall e :: e in es <==>
              exists i :: 0 <= i < |cs| && Keeps(cs[i], t) && e == EntryOf(cs[i], PlannedOf(FirstMonthlyAmount(cs[i]).value))
  {
    if cs == [] then []
    else
      var init := cs[..|cs| - 1];
      var last := cs[|cs| - 1];
      var es := Selected(init, t) + (if Keeps(last, t) then [EntryOf(last, PlannedOf(FirstMonthlyAmount(last).value))] else []);
      assert forall i :: 0 <= i < |init| ==> init[i] == cs[i];
      es
  }

  /** Taking one more category appends its entry when it is kept. */
  lemma SelectedStep(cs: seq<CategoryAmounts>, i: nat, t: string)
    requires i < |cs|
    ensures Selected(cs[..i + 1], t)
              == Selected(cs[..i], t) + (if Keeps(cs[i], t) then [EntryOf(cs[i], PlannedOf(FirstMonthlyAmount(cs[i]).value))] else [])
  {
    assert cs[..i + 1][..i] == cs[..i];
  }

  /** `key=lambda x: x['planned'], reverse=True`: larger planned amounts first, ties in input order. */
  predicate ByPlannedDesc(a: Entry, b: Entry)
  {
    a.planned >= b.planned
  }

  lemma PlannedDescIsPreorder()
    ensures TotalPreorder(ByPlannedDesc)
  {
  }

  /** `sorted(es, key=planned, reverse=True)` */
  function SortedByPlanned(es: seq<Entry>): (r: seq<Entry>)
    ensures multiset(r) == multiset(es)
  {
    SortBy(es, ByPlannedDesc)
  }

  /** The result `parse_budget_data` builds from a response whose categories all have a first monthly amount. */
  function Forecasted(data: BudgetResponse): Forecast
  {
    var totals := ParseBudgetTotals(data, Planned);
    Forecast(totals.totalIncome, totals.totalExpenses,
             SortedByPlanned(Selected(data.monthlyAmountsByCategory, "income")),
             SortedByPlanned(Selected(data.monthlyAmountsByCategory, "expense")))
  }

  /**
   * `parse_budget_data`: the planned totals of the first month, and the categories with a positive
   * planned amount split by group type, each list sorted by planned amount, largest first. A category
   * whose 'monthlyAmounts' is an empty list makes the loop raise IndexError.
   */
  method ParseBudgetData(data: BudgetResponse) returns (r: Result<Forecast>)
    ensures r.Err? <==> exists i :: 0 <= i < |data.monthlyAmountsByCategory| && data.monthlyAmountsByCategory[i].monthlyAmounts == Some([])
    ensures r.Ok? ==> r.value == Forecasted(data)
  {
    var totals := ParseBudgetTotals(data, Planned);
    var income: seq<Entry> := [];
    var expense: seq<Entry> := [];
    var cats := data.monthlyAmountsByCategory;
    var i := 0;
    while i < |cats|
      invariant 0 <= i <= |cats|
      invariant forall j :: 0 <= j < i ==> cats[j].monthlyAmounts != Some([])
      invariant income == Selected(cats[..i], "income")
      invariant expense == Selected(cats[..i], "expense")
    {
      var c := cats[i];
      SelectedStep(cats, i, "income");
      SelectedStep(cats, i, "expense");
      match FirstMonthlyAmount(c) {
        case Err(e) =>
          return Err(e);
        case Ok(amounts) =>
          var planned := PlannedOf(amounts);
          if planned > 0.0 {
            var catType := CategoryGroupType(c);
            var entry := EntryOf(c, planned);
            if catType == "income" {
              income := income + [entry];
            } else if catType == "expense" {
              expense := expense + [entry];
            }
          }
      }
      i := i + 1;
    }
    assert cats[..i] == cats;
    income := SortedByPlanned(income);
    expense := SortedByPlanned(expense);
    r := Ok(Forecast(totals.totalIncome, totals.totalExpenses, income, expense));
  }

  /**
   * Each list holds exactly the kept categories of its group type, every one with money planned,
   * in descending order of planned amount, with categories of equal planned amount in input order.
   */
  lemma ForecastLists(data: BudgetResponse, t: string, y: Entry)
    requires t == "income" || t == "expense"
    ensures var f := Forecasted(data);
      var list := if t == "income" then f.incomeCategories else f.expenseCategories;
      var kept := Selected(data.monthlyAmountsByCategory, t);
      && multiset(list) == multiset(kept)
      && Sorted(list, ByPlannedDesc)
      && (forall e :: e in list ==> e.planned > 0.0)
      && Peers(list, y, ByPlannedDesc) == Peers(kept, y, ByPlannedDesc)
  {
    var kept := Selected(data.monthlyAmountsByCategory, t);
    PlannedDescIsPreorder();
    SortBySorted(kept, ByPlannedDesc);
    SortByStable(kept, y, ByPlannedDesc);
    forall e | e in SortedByPlanned(kept)
      ensures e.planned > 0.0
    {
      assert e in multiset(SortedByPlanned(kept));
    }
  }

  /** `starting_cash + expected_income - expected_expenses` */
  function ExpectedEndCash(startingCash: real, f: Forecast): (end: real)
    ensures end - startingCash == f.totalIncome - f.totalExpenses
  {
    startingCash + f.totalIncome - f.totalExpenses
  }

  /**
   * The totals are read from 'totalsByMonth' and never summed from the category lists: two responses
   * with the same totals forecast the same end-of-month cash whatever categories they list.
   */
  lemma EndCashIgnoresCategories(startingCash: real, a: BudgetResponse, b: BudgetResponse)
    requires a.totalsByMonth == b.totalsByMonth
    ensures ExpectedEndCash(startingCash, Forecasted(a)) == ExpectedEndCash(startingCash, Forecasted(b))
  {
  }
}

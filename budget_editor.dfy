/**
 * budget_editor.py: the data behind the budget editor. The default budget, the list of months
 * offered, the conversion of saved category lists to editable rows and back, the actual and
 * remaining amounts shown beside them, and the routing of the month's actual amounts by
 * category type. Tables are sequences of records.
 */
module BudgetEditor {
  import opened Results
  import opened Text
  import opened Numerals
  import opened Dates
  import opened Records
  import opened Utils
  import opened OrderedDicts
  import opened StableSort

  // ---------------------------------------------------------------- the default budget

  /** The groups offered in the group drop-down. */
  const CategoryGroups: seq<string> := [
    "Income", "Housing", "Food & Dining", "Auto & Transport", "Bills & Utilities", "Financial",
    "Health & Wellness", "Travel & Lifestyle", "Education", "Business", "Other"]

  /** A budgeted category: {'name': …, 'group': …, 'amount': …}. */
  datatype BudgetLine = BudgetLine(name: string, group: string, amount: real)

  datatype EditorBudget = EditorBudget(totalIncome: real, totalExpenses: real, incomeCategories: seq<BudgetLine>, expenseCategories: seq<BudgetLine>)

  /** The sum of the amounts planned for a list of categories. */
  function Planned(lines: seq<BudgetLine>): real
  {
    if lines == [] then 0.0 else lines[0].amount + Planned(lines[1..])
  }

  /**
   * `get_default_budget`: zero totals, no income categories, and one expense category, credit-card
   * payments in the Financial group, with nothing planned.
   */
  function DefaultBudget(): (b: EditorBudget)
    ensures b.totalIncome == 0.0 && b.totalExpenses == 0.0 && b.incomeCategories == []
    ensures |b.expenseCategories| == 1 && b.expenseCategories[0].name == "Credit Card Payments"
  {
    EditorBudget(0.0, 0.0, [], [BudgetLine("Credit Card Payments", "Financial", 0.0)])
  }

  /** The default budget plans no money, and each of its categories sits in a group the drop-down offers. */
  lemma DefaultBudgetIsEmpty()
    ensures Planned(DefaultBudget().incomeCategories) == 0.0
    ensures Planned(DefaultBudget().expenseCategories) == 0.0
    ensures forall l :: l in DefaultBudget().expenseCategories ==> l.group in CategoryGroups
  {
    assert CategoryGroups[5] == "Financial";
  }

  // ---------------------------------------------------------------- month_date

  /** `f"{month}-01" if len(month) == 7 else month`: a 'YYYY-MM' key becomes the first day of that month. */
  function MonthDate(month: string): (d: string)
    ensures |month| == 7 ==> d == month + "-01" && |d| == 10
    ensures |month| != 7 ==> d == month
  {
    if |month| == 7 then month + "-01" else month
  }

  /** For a four-digit year the month key is the 7-character form, so it becomes the ISO date of the month's first day, and normalising again changes nothing. */
  lemma MonthDateOfKey(year: int, month: int)
    requires 1000 <= year <= MaxYear && 1 <= month <= 12
    ensures MonthDate(MonthKey(year, month)) == IsoDate(Date(year, month, 1))
    ensures MonthDate(MonthDate(MonthKey(year, month))) == MonthDate(MonthKey(year, month))
  {
    FourDigitYear(year);
    assert Pow10(2) == 100 by {
      assert Pow10(1) == 10;
    }
    PaddedWidth(month, 2);
    assert |MonthKey(year, month)| == 7;
    IsoFirstOfMonth(year, month);
  }

  // ---------------------------------------------------------------- month options

  /** The month `delta` months away from today's, as `(year, month)` with Python's floor division. */
  function OptionMonth(today: Date, delta: int): (ym: (int, int))
    ensures 1 <= ym.1 <= 12
  {
    var n := today.month + delta - 1;
    (today.year + n / 12, n % 12 + 1)
  }

  /** Counting months from year 0, the option `delta` lies exactly `delta` months from today's month. */
  lemma OptionMonthIndex(today: Date, delta: int)
    ensures var ym := OptionMonth(today, delta);
      ym.0 * 12 + (ym.1 - 1) == today.year * 12 + (today.month - 1) + delta
  {
    var n := today.month + delta - 1;
    assert n == (n / 12) * 12 + n % 12;
  }

  /** Today's own month is the option for delta 0. */
  lemma OptionMonthToday(today: Date)
    requires ValidDate(today)
    ensures OptionMonth(today, 0) == (today.year, today.month)
  {
    var n := today.month - 1;
    assert 0 <= n < 12;
    assert n / 12 == 0 && n % 12 == n;
  }

  /** The key 'YYYY-MM' of the option `delta` months away from today's. */
  function OptionKey(today: Date, delta: int): string
  {
    var ym := OptionMonth(today, delta);
    MonthKey(ym.0, ym.1)
  }

  /** The selector's loop computes the key of option `delta` with the same floor arithmetic. */
  lemma LoopKey(today: Date, delta: int, year: int, month: nat)
    requires year == today.year + (today.month + delta - 1) / 12
    requires month == (today.month + delta - 1) % 12 + 1
    ensures MonthKey(year, month) == OptionKey(today, delta)
  {
    assert OptionMonth(today, delta) == (year, month);
  }

  /** The keys of the first k options, for delta = -12, -11, …, in that order. */
  function OptionKeys(today: Date, k: nat): (keys: seq<string>)
    ensures |keys| == k
  {
    if k == 0 then [] else OptionKeys(today, k - 1) + [OptionKey(today, k - 13)]
  }

  /** The option at position i is the month i - 12 months from today's. */
  lemma {:induction false} OptionKeyAt(today: Date, k: nat, i: nat)
    requires i < k
    ensures OptionKeys(today, k)[i] == OptionKey(today, i - 12)
  {
    var prev := OptionKeys(today, k - 1);
    var key := OptionKey(today, k - 13);
    assert OptionKeys(today, k) == prev + [key];
    if i < k - 1 {
      OptionKeyAt(today, k - 1, i);
      assert (prev + [key])[i] == prev[i];
    } else {
      assert i - 12 == k - 13;
      assert (prev + [key])[i] == key;
    }
  }

  /** Month keys in descending order. */
  predicate Later(a: string, b: string)
  {
    StrLe(b, a)
  }

  lemma LaterIsPreorder()
    ensures TotalPreorder(Later)
  {
    forall a: string, b: string
      ensures Later(a, b) || Later(b, a)
    {
      StrLeTotal(a, b);
    }
    forall a: string, b: string, c: string | Later(a, b) && Later(b, c)
      ensures Later(a, c)
    {
      StrLeTransitive(c, b, a);
    }
  }

  predicate Distinct(s: seq<string>)
  {
    forall i, j :: 0 <= i < j < |s| ==> s[i] != s[j]
  }

  /** `set(s)` as a list: each element once, in order of first appearance. */
  function Dedupe(s: seq<string>): (r: seq<string>)
    ensures Distinct(r)
    ensures forall x :: x in r <==> x in s
    ensures |r| <= |s|
  {
    if s == [] then []
    else
      var r := Dedupe(s[..|s| - 1]);
      var x := s[|s| - 1];
      assert s == s[..|s| - 1] + [x];
      if x in r then r else r + [x]
  }

  /** Strictly descending: each key is later than every key after it, and none repeats. */
  predicate Descending(s: seq<string>)
  {
    Sorted(s, Later) && Distinct(s)
  }

  /** `sorted(set(s), reverse=True)`: the distinct keys of s, latest first. */
  function SortedSetDesc(s: seq<string>): (r: seq<string>)
    ensures forall x :: x in r <==> x in s
    ensures Descending(r)
  {
    var d := Dedupe(s);
    var r := SortBy(d, Later);
    LaterIsPreorder();
    SortBySorted(d, Later);
    SortedDistinct(d, r);
    assert forall x :: x in r <==> x in multiset(r);
    assert forall x :: x in d <==> x in multiset(d);
    r
  }

  lemma SortedDistinct(d: seq<string>, r: seq<string>)
    requires Distinct(d) && multiset(r) == multiset(d)
    ensures Distinct(r)
  {
    forall i, j | 0 <= i < j < |r|
      ensures r[i] != r[j]
    {
      if r[i] == r[j] {
        assert multiset(r)[r[i]] >= 2 by {
          assert r[..i + 1] + r[i + 1..] == r;
          assert r[i] in r[..i + 1] && r[i] in r[i + 1..];
          assert multiset(r) == multiset(r[..i + 1]) + multiset(r[i + 1..]);
        }
        DistinctCount(d, r[i]);
      }
    }
  }

  lemma {:induction false} DistinctCount(d: seq<string>, x: string)
    requires Distinct(d)
    ensures multiset(d)[x] <= 1
  {
    if d != [] {
      var init := d[..|d| - 1];
      assert d == init + [d[|d| - 1]];
      assert Distinct(init) by {
        forall i, j | 0 <= i < j < |init|
          ensures init[i] != init[j]
        {
          assert init[i] == d[i] && init[j] == d[j];
        }
      }
      DistinctCount(init, x);
      if d[|d| - 1] == x {
        assert x !in init by {
          forall i | 0 <= i < |init|
            ensures init[i] != x
          {
            assert init[i] == d[i];
          }
        }
      }
    }
  }

  /** The descending list of a set of keys is determined by the set: `set` ordering cannot show through. */
  lemma {:induction false} DescendingUnique(a: seq<string>, b: seq<string>)
    requires Descending(a) && Descending(b)
    requires forall x :: x in a <==> x in b
    ensures a == b
  {
    SameElementsEmpty(a, b);
    if a != [] {
      assert a[0] in b && b[0] in a;
      var i :| 0 <= i < |b| && b[i] == a[0];
      var j :| 0 <= j < |a| && a[j] == b[0];
      if a[0] != b[0] {
        assert i > 0 && j > 0;
        assert StrLe(a[0], b[0]) && StrLe(b[0], a[0]);
        StrLeAntisymmetric(a[0], b[0]);
      }
      DescendingTail(a);
      DescendingTail(b);
      forall x
        ensures x in a[1..] <==> x in b[1..]
      {
        if x in a[1..] {
          var k :| 0 <= k < |a[1..]| && a[1..][k] == x;
          assert a[k + 1] == x && x != a[0];
          assert x in a && x in b;
          var m :| 0 <= m < |b| && b[m] == x;
          assert m != 0 && b[1..][m - 1] == x;
        }
        if x in b[1..] {
          var k :| 0 <= k < |b[1..]| && b[1..][k] == x;
          assert b[k + 1] == x && x != b[0];
          assert x in b && x in a;
          var m :| 0 <= m < |a| && a[m] == x;
          assert m != 0 && a[1..][m - 1] == x;
        }
      }
      DescendingUnique(a[1..], b[1..]);
      assert a == [a[0]] + a[1..] && b == [b[0]] + b[1..];
    }
  }

  lemma SameElementsEmpty(a: seq<string>, b: seq<string>)
    requires forall x :: x in a <==> x in b
    ensures a == [] <==> b == []
  {
    if a != [] {
      assert a[0] in b;
    }
    if b != [] {
      assert b[0] in a;
    }
  }

  lemma DescendingTail(s: seq<string>)
    requires s != [] && Descending(s)
    ensures Descending(s[1..])
  {
    forall i, j | 0 <= i < j < |s| - 1
      ensures Later(s[1..][i], s[1..][j]) && s[1..][i] != s[1..][j]
    {
      assert s[1..][i] == s[i + 1] && s[1..][j] == s[j + 1];
    }
  }

  /** `lst.index(x)`: the first position of x. */
  function IndexOf(s: seq<string>, x: string): (i: nat)
    requires x in s
    ensures i < |s| && s[i] == x
    ensures forall j :: 0 <= j < i ==> s[j] != x
  {
    if s[0] == x then 0 else 1 + IndexOf(s[1..], x)
  }

  /** The months offered: the sixteen options and the saved budget months, distinct and latest first. */
  function MonthChoices(today: Date, existing: seq<string>): seq<string>
  {
    SortedSetDesc(SortedSetDesc(OptionKeys(today, 16)) + existing)
  }

  /**
   * The month selector: the months from twelve before today's to three after, merged with the
   * months that have saved budgets, each list de-duplicated and sorted latest first; the
   * preselected entry is today's month if it is listed and the first entry otherwise.
   */
  method MonthOptions(today: Date, existing: seq<string>) returns (allMonths: seq<string>, defaultIndex: nat)
    requires ValidDate(today)
    ensures allMonths == MonthChoices(today, existing)
    ensures var current := MonthKey(today.year, today.month);
      defaultIndex == if current in allMonths then IndexOf(allMonths, current) else 0
  {
    var months: seq<string> := [];
    var delta := -12;
    ghost var k: nat := 0;
    while delta < 4
      invariant -12 <= delta <= 4 && k == delta + 12
      invariant months == OptionKeys(today, k)
    {
      var year := today.year + (today.month + delta - 1) / 12;
      var month := (today.month + delta - 1) % 12 + 1;
      assert k + 1 - 13 == delta;
      LoopKey(today, delta, year, month);
      months := months + [MonthKey(year, month)];
      delta := delta + 1;
      k := k + 1;
    }
    months := SortedSetDesc(months);
    allMonths := SortedSetDesc(months + existing);
    var current := MonthKey(today.year, today.month);
    if current in allMonths {
      defaultIndex := IndexOf(allMonths, current);
    } else {
      defaultIndex := 0;
    }
  }

  /**
   * Today's month is always among the choices, which are exactly the options and the saved months,
   * latest first; so the preselected entry is always today's month.
   */
  lemma MonthChoicesHoldToday(today: Date, existing: seq<string>)
    requires ValidDate(today)
    ensures MonthKey(today.year, today.month) in MonthChoices(today, existing)
    ensures forall x :: x in MonthChoices(today, existing) <==> x in OptionKeys(today, 16) || x in existing
    ensures Descending(MonthChoices(today, existing))
  {
    var keys := OptionKeys(today, 16);
    var merged := SortedSetDesc(keys) + existing;
    assert MonthChoices(today, existing) == SortedSetDesc(merged);
    TodayIsOption(today);
    var current := keys[12];
    assert current in SortedSetDesc(keys);
    assert current in merged;
    assert forall x :: x in merged <==> x in keys || x in existing;
  }

  /** The option for delta 0, at position 12, is today's month. */
  lemma TodayIsOption(today: Date)
    requires ValidDate(today)
    ensures OptionKeys(today, 16)[12] == MonthKey(today.year, today.month)
  {
    OptionMonthToday(today);
    OptionKeyAt(today, 16, 12);
    assert OptionKey(today, 0) == MonthKey(today.year, today.month);
  }

  // ---------------------------------------------------------------- categories_to_df and back

  /** A saved category record; None means the key is absent. */
  datatype CategoryRecord = CategoryRecord(name: Option<string>, group: Option<string>, amount: Option<real>)

  /** A row of the editable table; None is a missing value (NaN) in a column some other row fills. */
  datatype EditorRow = EditorRow(name: Option<string>, group: Option<string>, amount: Option<real>)

  predicate HasNames(cs: seq<CategoryRecord>)
  {
    exists i :: 0 <= i < |cs| && cs[i].name.Some?
  }

  predicate HasGroups(cs: seq<CategoryRecord>)
  {
    exists i :: 0 <= i < |cs| && cs[i].group.Some?
  }

  predicate HasAmounts(cs: seq<CategoryRecord>)
  {
    exists i :: 0 <= i < |cs| && cs[i].amount.Some?
  }

  /** The group a category without one is given: 'Income' on the income table, 'Other' on the expense table. */
  function DefaultGroup(isIncome: bool): string
  {
    if isIncome then "Income" else "Other"
  }

  /** The row of one record once the table's columns are known to be present or absent. */
  function RowOf(c: CategoryRecord, names: bool, groups: bool, amounts: bool, isIncome: bool): EditorRow
  {
    EditorRow(if names then c.name else Some(""),
              if groups then c.group else Some(DefaultGroup(isIncome)),
              if amounts then c.amount else Some(0.0))
  }

  function RowsOf(cs: seq<CategoryRecord>, names: bool, groups: bool, amounts: bool, isIncome: bool): (rows: seq<EditorRow>)
    ensures |rows| == |cs|
    ensures forall i :: 0 <= i < |cs| ==> rows[i] == RowOf(cs[i], names, groups, amounts, isIncome)
  {
    if cs == [] then [] else [RowOf(cs[0], names, groups, amounts, isIncome)] + RowsOf(cs[1..], names, groups, amounts, isIncome)
  }

  /**
   * `categories_to_df`: one row per record with the columns name, group and amount. A column no
   * record has is filled with '' for the name, the table's default group, and 0.0 for the amount.
   */
  function CategoriesToRows(cs: seq<CategoryRecord>, isIncome: bool): (rows: seq<EditorRow>)
    ensures |rows| == |cs|
  {
    RowsOf(cs, HasNames(cs), HasGroups(cs), HasAmounts(cs), isIncome)
  }

  /** `df_to_categories`: each row back to a record, a missing value read back as an absent key. */
  function RowsToCategories(rows: seq<EditorRow>): (cs: seq<CategoryRecord>)
    ensures |cs| == |rows|
    ensures forall i :: 0 <= i < |rows| ==> cs[i] == CategoryRecord(rows[i].name, rows[i].group, rows[i].amount)
  {
    if rows == [] then [] else [CategoryRecord(rows[0].name, rows[0].group, rows[0].amount)] + RowsToCategories(rows[1..])
  }

  /**
   * A column present in any record is kept as it is, one absent from all is filled with its default
   * everywhere; in particular every group is filled exactly when no record names one.
   */
  lemma CategoryColumns(cs: seq<CategoryRecord>, isIncome: bool, i: nat)
    requires i < |cs|
    ensures var row := CategoriesToRows(cs, isIncome)[i];
      && (row.name == if HasNames(cs) then cs[i].name else Some(""))
      && (row.group == if HasGroups(cs) then cs[i].group else Some(DefaultGroup(isIncome)))
      && (row.amount == if HasAmounts(cs) then cs[i].amount else Some(0.0))
  {
  }

  /** Records with all three keys come back unchanged from a trip through the table. */
  lemma {:induction false} CategoriesRoundTrip(cs: seq<CategoryRecord>, isIncome: bool)
    requires forall i :: 0 <= i < |cs| ==> cs[i].name.Some? && cs[i].group.Some? && cs[i].amount.Some?
    ensures RowsToCategories(CategoriesToRows(cs, isIncome)) == cs
  {
    if cs != [] {
      assert HasNames(cs) && HasGroups(cs) && HasAmounts(cs) by {
        assert cs[0].name.Some? && cs[0].group.Some? && cs[0].amount.Some?;
      }
      var back := RowsToCategories(CategoriesToRows(cs, isIncome));
      assert forall i :: 0 <= i < |cs| ==> back[i] == cs[i];
    }
  }

  /** Saving the table and loading it again gives the same table: the normalisation is idempotent. */
  lemma TableRoundTrip(cs: seq<CategoryRecord>, isIncome: bool)
    ensures CategoriesToRows(RowsToCategories(CategoriesToRows(cs, isIncome)), isIncome) == CategoriesToRows(cs, isIncome)
  {
    var rows := CategoriesToRows(cs, isIncome);
    var back := RowsToCategories(rows);
    if cs != [] {
      assert HasNames(back) by {
        if HasNames(cs) {
          var i :| 0 <= i < |cs| && cs[i].name.Some?;
          assert back[i].name.Some?;
        } else {
          assert back[0].name.Some?;
        }
      }
      assert HasGroups(back) by {
        if HasGroups(cs) {
          var i :| 0 <= i < |cs| && cs[i].group.Some?;
          assert back[i].group.Some?;
        } else {
          assert back[0].group.Some?;
        }
      }
      assert HasAmounts(back) by {
        if HasAmounts(cs) {
          var i :| 0 <= i < |cs| && cs[i].amount.Some?;
          assert back[i].amount.Some?;
        } else {
          assert back[0].amount.Some?;
        }
      }
      var again := CategoriesToRows(back, isIncome);
      assert forall i :: 0 <= i < |cs| ==> again[i] == rows[i];
    }
  }

  // ---------------------------------------------------------------- build_actuals_df

  /** A row of the edited table as the actuals view reads it. */
  datatype EditedRow = EditedRow(name: string, amount: real)

  datatype ActualRow = ActualRow(actual: real, remaining: real)

  /** `float(actuals.get(name, 0.0))` */
  function ActualFor(actuals: map<string, real>, name: string): real
  {
    if name in actuals then actuals[name] else 0.0
  }

  /**
   * `build_actuals_df`: for each edited row the category's actual amount (zero when there is none)
   * and what remains of its planned amount; no rows for an empty table.
   */
  function BuildActuals(edited: seq<EditedRow>, actuals: map<string, real>): (rows: seq<ActualRow>)
    ensures |rows| == |edited|
    ensures forall i :: 0 <= i < |edited| ==> rows[i].actual == ActualFor(actuals, edited[i].name)
    ensures forall i :: 0 <= i < |edited| ==> rows[i].actual + rows[i].remaining == edited[i].amount
  {
    if edited == [] then []
    else
      var a := ActualFor(actuals, edited[0].name);
      [ActualRow(a, edited[0].amount - a)] + BuildActuals(edited[1..], actuals)
  }

  /** What remains over the table is the total planned less the total actual. */
  lemma {:induction false} RemainingTotal(edited: seq<EditedRow>, actuals: map<string, real>)
    ensures SumRemaining(BuildActuals(edited, actuals)) == PlannedRows(edited) - SumActual(BuildActuals(edited, actuals))
  {
    if edited != [] {
      RemainingTotal(edited[1..], actuals);
      var rows := BuildActuals(edited, actuals);
      assert rows[1..] == BuildActuals(edited[1..], actuals);
    }
  }

  function PlannedRows(edited: seq<EditedRow>): real
  {
    if edited == [] then 0.0 else edited[0].amount + PlannedRows(edited[1..])
  }

  function SumActual(rows: seq<ActualRow>): real
  {
    if rows == [] then 0.0 else rows[0].actual + SumActual(rows[1..])
  }

  function SumRemaining(rows: seq<ActualRow>): real
  {
    if rows == [] then 0.0 else rows[0].remaining + SumRemaining(rows[1..])
  }

  // ---------------------------------------------------------------- the month's actuals

  /** The month's actual totals and the actual amount of every income and expense category, by name. */
  datatype Actuals = Actuals(totalIncomeActual: real, totalExpensesActual: real, incomeActuals: Dict<string, real>, expenseActuals: Dict<string, real>)

  /** `amounts.get('actualAmount', 0)` */
  function ActualOf(m: MonthlyAmount): real
  {
    m.actualAmount.GetOr(0.0)
  }

  /** The category's actual amount lands in the table for group type t. */
  predicate Routes(c: CategoryAmounts, t: string)
  {
    FirstMonthlyAmount(c).Ok? && CategoryGroupType(c) == t
  }

  /** The table for group type t after the categories cs: each assignment overwrites the same name's. */
  function Routed(cs: seq<CategoryAmounts>, t: string): (d: Dict<string, real>)
    ensures Valid(d)
  {
    if cs == [] then Empty()
    else
      var d := Routed(cs[..|cs| - 1], t);
      var c := cs[|cs| - 1];
      if Routes(c, t) then Put(d, CategoryName(c), ActualOf(FirstMonthlyAmount(c).value)) else d
  }

  /**
   * The actuals part of the sync: the first month's actual totals (zero when absent), then each
   * category's actual amount under its name, in the income table for type income and the expense
   * table for type expense; other types are dropped. A category whose 'monthlyAmounts' is an empty
   * list makes the loop raise IndexError.
   */
  method RouteActuals(data: BudgetResponse) returns (r: Result<Actuals>)
    ensures r.Err? <==> exists i :: 0 <= i < |data.monthlyAmountsByCategory| && data.monthlyAmountsByCategory[i].monthlyAmounts == Some([])
    ensures r.Ok? ==> r.value == Actuals(ParseBudgetTotals(data, Actual).totalIncome, ParseBudgetTotals(data, Actual).totalExpenses,
                                         Routed(data.monthlyAmountsByCategory, "income"), Routed(data.monthlyAmountsByCategory, "expense"))
  {
    var totals := ParseBudgetTotals(data, Actual);
    var income: Dict<string, real> := Empty();
    var expense: Dict<string, real> := Empty();
    var cats := data.monthlyAmountsByCategory;
    var i := 0;
    while i < |cats|
      invariant 0 <= i <= |cats|
      invariant forall j :: 0 <= j < i ==> cats[j].monthlyAmounts != Some([])
      invariant income == Routed(cats[..i], "income")
      invariant expense == Routed(cats[..i], "expense")
    {
      var c := cats[i];
      assert cats[..i + 1][..i] == cats[..i];
      var name := CategoryName(c);
      var catType := CategoryGroupType(c);
      match FirstMonthlyAmount(c) {
        case Err(e) =>
          return Err(e);
        case Ok(amounts) =>
          var actual := ActualOf(amounts);
          if catType == "income" {
            income := Put(income, name, actual);
          } else if catType == "expense" {
            expense := Put(expense, name, actual);
          }
      }
      i := i + 1;
    }
    assert cats[..i] == cats;
    r := Ok(Actuals(totals.totalIncome, totals.totalExpenses, income, expense));
  }

  /** A name has an entry in the table for type t exactly when some category of that type has that name. */
  lemma {:induction false} RoutedKeys(cs: seq<CategoryAmounts>, t: string)
    ensures forall k :: k in Routed(cs, t).entries <==> exists i :: 0 <= i < |cs| && Routes(cs[i], t) && CategoryName(cs[i]) == k
  {
    if cs != [] {
      var init := cs[..|cs| - 1];
      RoutedKeys(init, t);
      forall k
        ensures k in Routed(cs, t).entries <==> exists i :: 0 <= i < |cs| && Routes(cs[i], t) && CategoryName(cs[i]) == k
      {
        if exists i :: 0 <= i < |cs| && Routes(cs[i], t) && CategoryName(cs[i]) == k {
          var i :| 0 <= i < |cs| && Routes(cs[i], t) && CategoryName(cs[i]) == k;
          if i < |cs| - 1 {
            assert init[i] == cs[i];
          }
        }
        if k in Routed(init, t).entries {
          var i :| 0 <= i < |init| && Routes(init[i], t) && CategoryName(init[i]) == k;
          assert cs[i] == init[i];
        }
      }
    }
  }

  /** The amount kept under a name is that of the last category of the type with that name. */
  lemma {:induction false} RoutedLastWins(cs: seq<CategoryAmounts>, t: string, k: string) returns (i: nat)
    requires k in Routed(cs, t).entries
    ensures i < |cs| && Routes(cs[i], t) && CategoryName(cs[i]) == k
    ensures Routed(cs, t).entries[k] == ActualOf(FirstMonthlyAmount(cs[i]).value)
    ensures forall j :: i < j < |cs| ==> !(Routes(cs[j], t) && CategoryName(cs[j]) == k)
  {
    var init := cs[..|cs| - 1];
    var last := cs[|cs| - 1];
    if Routes(last, t) && CategoryName(last) == k {
      i := |cs| - 1;
    } else {
      i := RoutedLastWins(init, t, k);
      assert cs[i] == init[i];
      forall j | i < j < |cs|
        ensures !(Routes(cs[j], t) && CategoryName(cs[j]) == k)
      {
        if j < |cs| - 1 {
          assert cs[j] == init[j];
        }
      }
    }
  }
}

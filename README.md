# Monarch budgeting tools: a verified model of the core

The repository is a set of scripts around the Monarch Money personal-finance service. They fetch
budgets, accounts, balances and transactions from it, then compute budgets, forecasts and a
credit-card debt payoff plan. This project is a Dafny model of the computing core of those
scripts, with the properties each part promises proved about the model:

- **Debt payoff** (`debt_payoff.dfy`, module `DebtPayoff`):
  - the month-by-month amortisation `project_payoff`, as a method with a loop, proved equal to a
    closed specification: interest first, then a payment capped at what is owed, stopping at
    payoff or at the horizon;
  - that a larger payment never takes longer and never costs more interest;
  - the sweep of the monthly surplus shares `PAYOFF_PERCENTAGES`;
  - the guards that decide whether any projection is made: the surplus must be positive and the
    credit-card debt non-zero.
- **Budget data model** (`budget_data.dfy`, module `BudgetData`):
  - category types and their predicates;
  - the credit-card percentage of a breakdown and the top-level metric identities;
  - `parse_categories`, a loop filling an insertion-ordered dictionary keyed by id;
  - the name lookup and the by-type filters.
- **Utilities** (`utils.dfy`, module `Utils`):
  - currency formatting over integer cents, with its sign rules and a parse-back round trip;
  - parsing of a `YYYY-MM` month into its first and last day, with the errors `int()` and
    `datetime` raise for ASCII input, and `datetime`'s year range;
  - the current and previous month ranges;
  - `parse_budget_totals`.
  - `budget_forecast.py` and `cash_budget.py` carry identical copies of `parse_month`. The
    forecast's `format_currency` is the `show_sign=False` case. All of them are modelled once,
    here.
- **Forecast** (`budget_forecast.dfy`, module `BudgetForecast`):
  - `parse_budget_data` as a method with a loop: the positive planned categories, split by group
    type and stably sorted by planned amount, largest first;
  - the expected-end-cash formula.
- **Cash balances** (`cash_budget.dfy`, module `CashBudget`):
  - the choice of the month to report, defaulting to the previous one;
  - `parse_cash_balances`: the earliest and latest snapshot by date.
- **Credit-card analyzer** (`analyzer.dfy`, module `Analyzer`): the class `CreditCardAnalyzer`,
  with
  - the credit-account filter of its constructor;
  - the purchase/payment split of the card transactions;
  - the per-card payoff-progress rows.
- **Budget editor** (`budget_editor.dfy`, module `BudgetEditor`):
  - the default budget;
  - `month_date`;
  - the month selector's options, merged with the months that have saved budgets, de-duplicated
    and sorted latest first, with the default index;
  - the category table conversions both ways;
  - the actual/remaining columns;
  - the routing of a month's actual amounts by category type.

Shared building blocks:

- `results.dfy`: `Option`, `Result` and the error kinds standing for the exceptions the source
  raises.
- `text.dfy`: Python's `split`, `strip` and `lower`, and string ordering.
- `numerals.dfy`: `int()` on ASCII numerals (surrounding whitespace, a sign, underscores between
  digits), `str()` of integers, and zero padding.
- `dates.dfy`: the proleptic Gregorian calendar of `datetime`, with years 1..9999.
- `sorting.dfy`: Python's stable `sorted`/`list.sort`, proved sorted, a permutation, and stable.
- `dicts.dfy`: insertion-ordered dictionaries.
- `records.dfy`: the JSON records of the API, with their optional keys.

Money, balances and rates are `real`; the currency formatter works on integer cents. "Today",
the list of saved budget months and the API responses are parameters.

## Model

| member | source | states |
|---|---|---|
| DebtPayoff.NextCloses | debt_payoff.py:72-79 | The month's payment is at most the payment due and at most what is owed after interest, and is one of the two. The month closes at what is owed less the payment when that is positive, and at zero otherwise. |
| DebtPayoff.Timeline | debt_payoff.py:66-81 | The timeline of k months has k+1 entries, and entry i is month i with the balance after i months. |
| DebtPayoff.ProjectPayoff | debt_payoff.py:46-92 | The loop's timeline, total interest, total paid, month count and paid-off flag are exactly the closed specification `Projected`. |
| DebtPayoff.Projected | debt_payoff.py:65-92 | The closed specification of a projection: the horizon's first month closing at or below zero, or the horizon itself, and the timeline, interest, payments and paid-off flag after that many months. |
| DebtPayoff.ProjectionShape | debt_payoff.py:65-91 | The timeline starts at `(0, debt)` with consecutive month numbers. `months == len(timeline) - 1`. `paid_off` holds exactly when the last balance is at most zero. |
| DebtPayoff.ProjectionStops | debt_payoff.py:70-91 | `months` never exceeds `max_months`. Every month before the last closes with a positive balance. A plan that is not paid off used the whole horizon. |
| DebtPayoff.ProjectionNonNegative | debt_payoff.py:77-81 | Because the payment is capped at what is owed, no balance after month 0 is negative. |
| DebtPayoff.Conservation | debt_payoff.py:65-79 | After k months, the total paid equals the debt plus the total interest minus the balance still owed. |
| DebtPayoff.ProjectionConserves | debt_payoff.py:86-92 | The projection's `total_paid == total_cc_debt + total_interest - final balance`. |
| DebtPayoff.BalanceFalls | debt_payoff.py:70-84 | With a non-negative rate and a payment above the first month's interest, the balance stays within `0..debt`. It falls by at least the margin each month until zero. |
| DebtPayoff.PaysOff | debt_payoff.py:70-91 | If n months of that margin cover the debt and n is within the horizon, the projection is paid off in at most n months. |
| DebtPayoff.BalanceNeverFalls | debt_payoff.py:70-84 | A payment no larger than the first month's interest never brings the balance below the debt. |
| DebtPayoff.NeverPaysOff | debt_payoff.py:70-91 | A payment no larger than the first month's interest is never paid off, and it uses the whole horizon. |
| DebtPayoff.NextMono | debt_payoff.py:72-79 | A month closes no higher from a lower opening balance with a larger payment. |
| DebtPayoff.BalanceMono | debt_payoff.py:70-81 | Month by month, a larger payment never leaves more owing. |
| DebtPayoff.InterestMono | debt_payoff.py:72-75 | Over the same months, a larger payment accrues no more interest. |
| DebtPayoff.InterestGrows | debt_payoff.py:72-75 | From month 1 on, the running interest total never decreases. |
| DebtPayoff.PayoffMonotone | debt_payoff.py:65-91 | For the same debt, rate and horizon, a larger monthly payment gives a projection with no more months and no more total interest. |
| DebtPayoff.Sweep | debt_payoff.py:198-200 | The sweep has one row per percentage. |
| DebtPayoff.SweepRows | debt_payoff.py:198-200 | Row i is the projection of percentage i alone, with payment `surplus * pct` at 2% a month over 120 months. No row depends on another. |
| DebtPayoff.ProjectScenario | debt_payoff.py:199-200 | One pass of the sweep is the row `ScenarioFor` of its percentage. |
| DebtPayoff.RunScenarios | debt_payoff.py:198-221 | The loop over the percentages builds exactly `Sweep`. |
| DebtPayoff.Owed | debt_payoff.py:280 | An account's contribution `abs(currentBalance or 0)` is never negative. |
| DebtPayoff.TotalOwed | debt_payoff.py:279-282 | The total credit-card debt is non-negative. It is zero exactly when every account owes nothing. |
| DebtPayoff.PlanPayoff | debt_payoff.py:277-317 | The surplus is starting cash plus planned income minus planned expenses. "No surplus" holds exactly when it is not positive. "No debt" holds exactly when the surplus is positive and every credit account owes nothing. Otherwise the plan carries the positive total debt, the surplus and the sweep over `PAYOFF_PERCENTAGES`. |
| DebtPayoff.SweepPaysSomething | debt_payoff.py:198-200 | With a positive surplus and positive percentages, every scenario's payment is positive. |
| DebtPayoff.PlannedScenariosPay | debt_payoff.py:39 | Every share in `PAYOFF_PERCENTAGES` gives a positive payment once a plan is made. |
| BudgetData.ParseCategoryType | monarch_budgeting/budget_data.py:120-126 | The lower-cased type string `"income"` gives INCOME and `"transfer"` gives TRANSFER. Anything else is EXPENSE; each case holds in both directions. |
| BudgetData.ExactlyOneKind | monarch_budgeting/budget_data.py:31-46 | Exactly one of `is_income`, `is_expense` and `is_transfer` holds. |
| BudgetData.Category.IsIncome | monarch_budgeting/budget_data.py:31-33 | The category's type is INCOME. |
| BudgetData.Category.IsExpense | monarch_budgeting/budget_data.py:35-37 | The category's type is EXPENSE. |
| BudgetData.Category.IsTransfer | monarch_budgeting/budget_data.py:39-41 | The category's type is TRANSFER. |
| BudgetData.Category.IsCcPayment | monarch_budgeting/budget_data.py:43-46 | The system category is `credit_card_payment`. |
| BudgetData.CategoryBreakdown.CcPercentage | monarch_budgeting/budget_data.py:60-65 | The percentage is 0 when the actual amount is 0, and `cc / actual * 100` otherwise. It lies in 0..100 when the card amount is within the actual amount. |
| BudgetData.TopLevelMetrics.Calculate | monarch_budgeting/budget_data.py:79-97 | The four inputs are copied through. Cash plus card expenses are the total expenses. Remaining cash plus cash expenses plus card payments are the income. New card spending equals the card expenses. |
| BudgetData.ToCategory | monarch_budgeting/budget_data.py:120-136 | The category keeps the raw id and takes the parsed group type, with a missing type read as `expense`. A present name, group id, group name and system flag are copied; missing ones default to `Unknown`, `''`, `Other` and false. The system category is copied as it is, absent or not. |
| BudgetData.Parsed | monarch_budgeting/budget_data.py:100-140 | The dictionary after the entries in order: each entry with a non-empty id put under that id. It is a well-formed ordered dictionary. |
| BudgetData.ParseCategories | monarch_budgeting/budget_data.py:100-140 | The loop builds `Parsed`. A key is present exactly when some entry has that non-empty id, and every key maps to a category with that id. |
| BudgetData.ParsedKeys | monarch_budgeting/budget_data.py:115-118 | Entries without an id, or with an empty one, are skipped; every other id becomes a key. |
| BudgetData.ParsedLastWins | monarch_budgeting/budget_data.py:138 | The category kept under an id is the one built from the last entry with that id. |
| BudgetData.ParsedOrder | monarch_budgeting/budget_data.py:111-138 | The keys are in order of first appearance, as a Python dict keeps them. |
| BudgetData.GetCategoryByName | monarch_budgeting/budget_data.py:143-149 | None exactly when no category's lower-cased name equals the lower-cased query. Otherwise the result is the first match in dictionary order. |
| BudgetData.Filter | monarch_budgeting/budget_data.py:155 | The comprehension keeps exactly the categories of the given type. |
| BudgetData.FilterAppend | monarch_budgeting/budget_data.py:155 | The filter keeps input order: filtering a concatenation concatenates the filtered parts. |
| BudgetData.CategoriesByType | monarch_budgeting/budget_data.py:152-155 | The result holds exactly the dictionary's categories of that type. |
| BudgetData.FilterPartition | monarch_budgeting/budget_data.py:152-170 | The income, expense and transfer lists together have as many entries as there are categories. |
| BudgetData.IncomeCategories | monarch_budgeting/budget_data.py:158-160 | Exactly the categories for which `is_income` holds. |
| BudgetData.ExpenseCategories | monarch_budgeting/budget_data.py:163-165 | Exactly the categories for which `is_expense` holds. |
| BudgetData.TransferCategories | monarch_budgeting/budget_data.py:168-170 | Exactly the categories for which `is_transfer` holds. |
| Utils.FormatCurrency | monarch_budgeting/utils.py:9-24 | The text starts with `-` exactly for negative amounts and with `+` exactly for positive amounts with `show_sign`. It starts with `$` otherwise, including zero. A sign is always followed by `$`. The copy at budget_forecast.py:93-97 is the case with `show_sign` false. |
| Utils.FormatCurrencyParses | monarch_budgeting/utils.py:18-24 | Reading the digits back from the formatted text, with its sign, gives the amount. So a negative amount shows its absolute value after `-$`. |
| Utils.ParseMonth | monarch_budgeting/utils.py:27-54 | A string that does not split into two parts is a format error. A success starts on day 1 of a valid date and ends on the last day of that month. A failure is a format error or an uncaught integer overflow. A numeral of more than 4300 digits is a format error, as `int()` refuses it. The copies at budget_forecast.py:32-49 and cash_budget.py:28-45 differ only in the message text. |
| Utils.MonthOf | monarch_budgeting/utils.py:40-50 | Two integer fields give a month exactly when they fit a C int and form a month of years 1..9999 whose next month exists. The month is then `MonthRange`. |
| Dates.MonthRange | monarch_budgeting/utils.py:41-50 | A year and month give a month exactly in 1..12 of years 1..9999, except December 9999, whose next month's first day is beyond `datetime`'s range. The span runs from the 1st to the last day. |
| Dates.DaysInMonth | monarch_budgeting/utils.py:45-50 | A month has 28 to 31 days, and February has 29 exactly in leap years. |
| Dates.PrevDay | monarch_budgeting/utils.py:50 | Subtracting one day gives a valid date whose next day is the original. |
| Utils.ParseMonthKey | monarch_budgeting/utils.py:40-54 | A `YYYY-MM` key built from a year and month parses exactly when the year is within 1..9999 and the key is not December 9999. It then gives that year and month. |
| Utils.GetCurrentMonthRange | monarch_budgeting/utils.py:57-73 | Defined exactly when today is not in December 9999. It starts on the 1st of today's month and agrees with `parse_month` on today's key. |
| Utils.GetPreviousMonthRange | monarch_budgeting/utils.py:76-92 | Defined exactly when today is not in January of year 1. It ends the day before the 1st of today's month and is the whole previous month, December of the prior year in January. |
| Utils.ParseBudgetTotals | monarch_budgeting/utils.py:95-115 | 0/0 for an empty `totalsByMonth`. Otherwise the first entry's amounts of the requested kind, a missing amount read as 0. |
| Utils.BudgetTotalsFirstEntryOnly | monarch_budgeting/utils.py:105-113 | Entries after the first never change the totals. |
| Numerals.ParseInt | monarch_budgeting/utils.py:41 | `int()` of a string: a success needs something left after stripping whitespace. Digits, padding and the round trip with `str()` are the lemmas below. |
| Numerals.ParseDigits | monarch_budgeting/utils.py:41 | A non-empty string of ASCII digits, leading zeros included, reads as the number it denotes when it has at most 4300 digits, and is a ValueError when longer. |
| Numerals.IntToStringRoundTrip | monarch_budgeting/utils.py:41 | `int(str(i)) == i` for every integer of at most 4300 digits, negative ones included; a longer one is a ValueError. |
| Utils.MonthKeyFields | monarch_budgeting/utils.py:40-54 | A `YYYY-MM` key with a year of at most 4300 digits splits and reads back as exactly that year and month. A longer year is an invalid month format, not an overflow. |
| Utils.OverlongYear | monarch_budgeting/utils.py:40-54 | A year numeral of more than 4300 digits makes `parse_month` report an invalid month format. |
| Numerals.UnderscoreNumeral | monarch_budgeting/utils.py:41 | A single underscore between digits is accepted and ignored: `"1_2"` reads as 12. |
| Numerals.NoBreakSpaceNumeral | monarch_budgeting/utils.py:41 | A no-break space counts as surrounding whitespace: it is stripped before `"12"` reads as 12. |
| Numerals.LeadingUnderscore | monarch_budgeting/utils.py:41 | A leading underscore (`"_12"`) is a ValueError. |
| Numerals.TrailingUnderscore | monarch_budgeting/utils.py:41 | A trailing underscore (`"12_"`) is a ValueError. |
| Numerals.DoubledUnderscore | monarch_budgeting/utils.py:41 | Two underscores in a row (`"1__2"`) are a ValueError. |
| Text.Split | monarch_budgeting/utils.py:41 | `split('-')` gives at least one piece, no piece holds the separator, and joining the pieces with it gives the string back. |
| Text.SplitPair | monarch_budgeting/utils.py:41 | Two separator-free pieces joined by the separator split back into exactly those two. |
| Text.StripSpec | monarch_budgeting/utils.py:41 | `strip()` keeps one contiguous slice of the string. Everything cut off on either side is whitespace, and the kept slice neither starts nor ends with whitespace. |
| Text.Lower | monarch_budgeting/budget_data.py:145-147 | `lower()` keeps the length. Each upper-case ASCII letter becomes its lower-case letter, 32 code points up. Every other character is kept. |
| Records.FirstMonthlyAmount | budget_forecast.py:70 | `monthlyAmounts` defaults to `[{}]`, and an empty list fails (IndexError). Otherwise the result is its first element. |
| Records.CreditAccountsMembers | monarch_budgeting/analyzer.py:26-29 | The credit accounts are exactly the input accounts whose type name is `credit`. |
| Records.CreditAccountsAppend | debt_payoff.py:277 | The filter keeps input order: filtering a concatenation concatenates the filtered parts. |
| Records.CreditAccounts | monarch_budgeting/analyzer.py:26-29 | The accounts of type `credit`, never more than the input. |
| BudgetForecast.Selected | budget_forecast.py:68-84 | Only categories with a positive planned amount and the requested group type appear, with their name, group and planned amount. |
| BudgetForecast.SortedByPlanned | budget_forecast.py:87-88 | The sorted list is a permutation of its input. |
| BudgetForecast.ParseBudgetData | budget_forecast.py:52-90 | An error (IndexError) happens exactly when some category has an empty `monthlyAmounts`. Otherwise the result is `Forecasted`: the first month's planned totals and the two sorted lists. |
| BudgetForecast.Forecasted | budget_forecast.py:52-90 | The specification of the forecast: the first month's planned totals and, per group type, the positive planned categories sorted by planned amount, largest first. |
| BudgetForecast.ForecastLists | budget_forecast.py:71-88 | Each list is a permutation of the kept categories of its type and sorted by planned amount, largest first. It is stable, so equal amounts keep input order, and holds only positive amounts. |
| BudgetForecast.ExpectedEndCash | budget_forecast.py:105-107 | The end cash exceeds the starting cash by planned income minus planned expenses. |
| BudgetForecast.EndCashIgnoresCategories | budget_forecast.py:206-208 | The expected end cash depends on the totals only, not on the category lists. |
| StableSort.SortBySorted | budget_forecast.py:87-88 | Sorting by a total preorder gives a sorted list. |
| StableSort.SortByStable | cash_budget.py:78 | Sorting is stable: the elements equal under the key keep their relative order. |
| StableSort.SortBy | budget_forecast.py:87-88 | The stable sort by a comparison; the result is a permutation of the input, of the same length. |
| CashBudget.SelectMonth | cash_budget.py:106-121 | A given non-empty month is parsed with `parse_month`. Otherwise the previous month is used. |
| CashBudget.SelectedMonthIsWhole | cash_budget.py:106-121 | The chosen month, when defined, runs from the 1st to the last day of one month. |
| CashBudget.DefaultMonthEndsBeforeToday | cash_budget.py:110-121 | The default month ends on the day before the 1st of today's month. |
| CashBudget.DateOr | cash_budget.py:91-92 | A snapshot's date is used when present and non-empty. Otherwise the requested date is formatted as `YYYY-MM-DD`. |
| Dates.IsoDate | cash_budget.py:91-92 | `strftime('%Y-%m-%d')` of a valid date: the year unpadded, month and day as two digits. |
| Dates.IsoFirstOfMonth | budget_editor.py:190 | The 1st of a month prints as its month key followed by `-01`. |
| Dates.MonthKey | budget_editor.py:364 | `f"{year}-{month:02d}"`: the year, a dash, and the month as at least two digits. |
| CashBudget.ParseCashBalances | cash_budget.py:54-93 | With no snapshots, both balances are None and the requested dates are passed through. Otherwise both dates are strings. |
| CashBudget.EarliestAndLatest | cash_budget.py:78-92 | The start balance and date come from an earliest-dated snapshot, the first such in input order. The end ones come from a latest-dated snapshot, the last such. |
| CashBudget.SingleSnapshot | cash_budget.py:78-82 | With one snapshot, start and end balance are both its balance. |
| Analyzer.CreditCardAnalyzer.constructor | monarch_budgeting/analyzer.py:16-29 | Stores the transactions and accounts, and keeps as credit-card accounts exactly the `credit` accounts in order. |
| Analyzer.CardTransactions | monarch_budgeting/analyzer.py:64-70 | A transaction is selected exactly when its account id is a credit-card id and its amount has the requested sign. |
| Analyzer.CardTransactionsAppend | monarch_budgeting/analyzer.py:64-70 | The card filter keeps input order: filtering a concatenation concatenates the filtered parts. |
| Analyzer.CreditCardAnalyzer.Categorize | monarch_budgeting/analyzer.py:51-75 | No transactions gives two empty tables. Purchases are exactly the card transactions with a negative amount and payments those with a positive amount, so zero amounts are in neither. |
| Analyzer.CreditCardAnalyzer.CalculateDebtPayoffProgress | monarch_budgeting/analyzer.py:77-120 | One row per credit-card account, in account order, each row being `Progress` of that account. |
| Analyzer.Progress | monarch_budgeting/analyzer.py:95-118 | The row for one card: its id, name and current balance (0 when missing), its payments' sum, the absolute value of its purchases' sum, and their difference. |
| Analyzer.SideSums | monarch_budgeting/analyzer.py:107-108 | An account's payments sum to at least 0 and its purchases to at most 0. |
| Analyzer.SidesCoverAccount | monarch_budgeting/analyzer.py:107-109 | For a card, payments plus purchases are the sum of all its transactions. |
| Analyzer.ProgressIsNetFlow | monarch_budgeting/analyzer.py:107-118 | Payments and new purchases are non-negative. The net debt reduction is payments minus purchases, which is the net amount posted to the card. |
| BudgetEditor.DefaultBudget | budget_editor.py:54-63 | Zero totals, no income categories and one expense category, "Credit Card Payments". |
| BudgetEditor.DefaultBudgetIsEmpty | budget_editor.py:32-63 | The default budget plans nothing, and its category's group is one the group list offers. |
| BudgetEditor.MonthDate | budget_editor.py:190 | A 7-character string gets `-01` appended and becomes 10 characters long. Any other string is unchanged. |
| BudgetEditor.MonthDateOfKey | budget_editor.py:190 | A month key with a four-digit year becomes the ISO date of the month's 1st, and normalising again changes nothing. |
| BudgetEditor.OptionMonth | budget_editor.py:361-363 | The computed month is always within 1..12. |
| BudgetEditor.OptionMonthIndex | budget_editor.py:361-363 | With floor division, option `delta` lies exactly `delta` months from today's month. |
| BudgetEditor.OptionMonthToday | budget_editor.py:361-363 | The option for delta 0 is today's year and month. |
| BudgetEditor.OptionKeys | budget_editor.py:359-364 | k options give k keys. |
| BudgetEditor.OptionKeyAt | budget_editor.py:359-364 | The key at position i is that of the month i - 12 months from today's. |
| BudgetEditor.TodayIsOption | budget_editor.py:361-364 | Position 12 of the sixteen options is today's month key. |
| BudgetEditor.Dedupe | budget_editor.py:365 | `set` keeps each key once, and exactly the keys of its input. |
| BudgetEditor.SortedSetDesc | budget_editor.py:365-369 | `sorted(set(s), reverse=True)` holds exactly the keys of s, strictly descending. |
| BudgetEditor.DescendingUnique | budget_editor.py:365-369 | Two strictly descending lists with the same keys are equal, so a set's iteration order cannot show through. |
| BudgetEditor.IndexOf | budget_editor.py:373 | `index` gives the first position holding the key. |
| BudgetEditor.MonthChoices | budget_editor.py:359-369 | The sixteen month options de-duplicated and sorted latest first, merged with the saved months, then de-duplicated and sorted latest first again. |
| BudgetEditor.MonthOptions | budget_editor.py:358-373 | The loop and the two sorts give `MonthChoices`. The default index is the position of today's key if listed, and 0 otherwise. |
| BudgetEditor.MonthChoicesHoldToday | budget_editor.py:358-373 | Today's key is always listed, and the choices are exactly the options and the saved months, latest first. So the preselected entry is always today's month. |
| BudgetEditor.RowsOf | budget_editor.py:312-326 | One row per record, each built from its own record. |
| BudgetEditor.CategoriesToRows | budget_editor.py:301-326 | The table has one row per category. |
| BudgetEditor.CategoryColumns | budget_editor.py:315-320 | A column some record has keeps each record's value. A column no record has is filled with `''`, `Income`/`Other` by table, or 0.0. |
| BudgetEditor.RowsToCategories | budget_editor.py:294-298 | One record per row, with the row's values. |
| BudgetEditor.CategoriesRoundTrip | budget_editor.py:294-326 | Records with all three keys come back unchanged from the table. |
| BudgetEditor.TableRoundTrip | budget_editor.py:294-326 | Saving the table and loading it again gives the same table. |
| BudgetEditor.BuildActuals | budget_editor.py:329-349 | One row per edited row, empty for an empty table. `Actual` is the name's actual amount, 0 when missing, and `Actual + Remaining` is the planned amount. |
| BudgetEditor.RemainingTotal | budget_editor.py:343-347 | The total remaining is the total planned minus the total actual. |
| BudgetEditor.Routed | budget_editor.py:248-258 | The routed table is a well-formed ordered dictionary. |
| BudgetEditor.RouteActuals | budget_editor.py:241-258 | An error (IndexError) happens exactly when some category has an empty `monthlyAmounts`. Otherwise the result has the first month's actual totals (0 when absent) and the routed income and expense tables. |
| BudgetEditor.RoutedKeys | budget_editor.py:248-258 | A name is in the table for a type exactly when some category of that type has that name. Other types are dropped. |
| BudgetEditor.RoutedLastWins | budget_editor.py:255-258 | The amount under a name is that of the last category of the type with that name. |

## Left out

- Network, authentication and async plumbing are not modelled. This covers the Monarch client,
  the `get_*`/`sync_*` coroutines and the `run_*` entry points beyond their arithmetic and guards.
  API responses are inputs.
- Rendering is not modelled: console tables, PDF and plot generation, Streamlit layout, and the
  text of messages and errors. Each error is a constructor of `Error`.
- File persistence is not modelled. `load_month_budget`, `save_month_budget` and
  `list_available_budgets` are not part of this model; the list of saved months is a parameter.
- Fetching the starting cash from account snapshots (debt_payoff.py:226-246,
  budget_editor.py:224-236) is a network call: the starting cash is a parameter.
- The transaction classifier behind the cash report's analyzer is not part of this model. Only
  the `TopLevelMetrics.calculate` identities are modelled.
- IEEE floating point is not modelled: money and rates are exact reals.
- Utils.FormatCurrency: does not model the `,.2f` rounding of a float. It formats a whole number of
  cents, so the sign and prefix rules and the digits are exact.
- `datetime.now()` is not called: "today" is a parameter. The two unused date arguments of
  `calculate_debt_payoff_progress` are left out.
- pandas DataFrames are sequences of records. `categories_to_df`'s column assignment is modelled
  on values, not as an update in place, and a missing value (NaN) is read back as an absent key.
  The expression `df.get('account', {}).get('id')` in the analyzer is modelled as the
  transaction's account id.
- Unicode case folding is not modelled: `Lower` maps ASCII letters only.
- Utils.ParseMonth: accepts ASCII digits only. `int()` also accepts the decimal digits of other
  scripts ("\u0661", Arabic-Indic one); the model reads those as a format error.
- Fields of unexpected types (`None` where a dict is expected, strings in amount fields) are not
  modelled. A present JSON `null` in an amount field is read as absent. So a `null` `currentBalance`
  gives a progress row of 0.0, where monarch_budgeting/analyzer.py:117 passes `None` through. Optional keys are `Option`s with the
  source's defaults.
- DebtPayoff.ProjectPayoff: with zero or negative debt, the code still runs month 1 and reports
  it; the caller's guard is what skips the projection. The model follows the code.
- The cash report's input list is not reordered by `sorted`: in a value model this holds without
  proof.
- `datetime` raising `OverflowError` for a field beyond a C int is the error `IntegerOverflow`.
  The year range 1..9999 raising `ValueError` is `InvalidMonthFormat` or `DateOutOfRange`.

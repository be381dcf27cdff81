/**
 * The shapes of the service's responses that the budgeting code reads, as typed records.
 * A key the code reads with `.get(key, default)` is an Option (None: the key is absent);
 * a list read with `.get(key, [])` is a plain sequence, absent and empty being alike.
 */
module Records {
  import opened Results

  /** {'plannedAmount': …, 'actualAmount': …} */
  datatype AmountPair = AmountPair(plannedAmount: Option<real>, actualAmount: Option<real>)

  /** One entry of 'totalsByMonth'. */
  datatype MonthTotals = MonthTotals(totalIncome: Option<AmountPair>, totalExpenses: Option<AmountPair>)

  /** A category's 'group': its display name and its 'type' ('income', 'expense', 'transfer', …). */
  datatype BudgetGroup = BudgetGroup(name: Option<string>, groupType: Option<string>)

  datatype BudgetCategory = BudgetCategory(name: Option<string>, group: Option<BudgetGroup>)

  /** One entry of a category's 'monthlyAmounts'. */
  datatype MonthlyAmount = MonthlyAmount(plannedCashFlowAmount: Option<real>, actualAmount: Option<real>)

  /**
   * One entry of 'monthlyAmountsByCategory'. An absent 'monthlyAmounts' reads as `[{}]`,
   * a present but empty one makes `[0]` raise IndexError, so the two are kept apart.
   */
  datatype CategoryAmounts = CategoryAmounts(category: Option<BudgetCategory>, monthlyAmounts: Option<seq<MonthlyAmount>>)

  /** The budget response for one month. */
  datatype BudgetResponse = BudgetResponse(totalsByMonth: seq<MonthTotals>, monthlyAmountsByCategory: seq<CategoryAmounts>)

  /** An account; `typeName` is `account['type']['name']`, e.g. 'credit' or 'depository'. */
  datatype Account = Account(id: string, displayName: string, typeName: Option<string>, currentBalance: Option<real>)

  /** A transaction; `accountId` is the id of the account it was posted to. */
  datatype Transaction = Transaction(id: string, amount: real, accountId: Option<string>)

  /** One entry of 'aggregateSnapshots': a dated aggregate balance. */
  datatype Snapshot = Snapshot(date: Option<string>, balance: Option<real>)

  /** The first monthly amount of a category, as `cat_data.get('monthlyAmounts', [{}])[0]` reads it. */
  function FirstMonthlyAmount(c: CategoryAmounts): (r: Result<MonthlyAmount>)
    ensures r.Err? <==> c.monthlyAmounts == Some([])
    ensures c.monthlyAmounts == None ==> r == Ok(MonthlyAmount(None, None))
    ensures r.Ok? && c.monthlyAmounts.Some? ==> r.value == c.monthlyAmounts.value[0]
  {
    match c.monthlyAmounts
    case None => Ok(MonthlyAmount(None, None))
    case Some(amounts) => if amounts == [] then Err(MissingMonthlyAmounts) else Ok(amounts[0])
  }

  /** `category.get('name', 'Unknown')` */
  function CategoryName(c: CategoryAmounts): string
  {
    match c.category
    case None => "Unknown"
    case Some(cat) => cat.name.GetOr("Unknown")
  }

  /** `category.get('group', {}).get('type', 'expense')` */
  function CategoryGroupType(c: CategoryAmounts): string
  {
    match c.category
    case None => "expense"
    case Some(cat) =>
      match cat.group
      case None => "expense"
      case Some(g) => g.groupType.GetOr("expense")
  }

  /** `category.get('group', {}).get('name', 'Other')` */
  function CategoryGroupName(c: CategoryAmounts): string
  {
    match c.category
    case None => "Other"
    case Some(cat) =>
      match cat.group
      case None => "Other"
      case Some(g) => g.name.GetOr("Other")
  }

  /** `acc.get('type', {}).get('name') == 'credit'` */
  predicate IsCreditAccount(a: Account)
  {
    a.typeName == Some("credit")
  }

  /** The credit-card accounts, in input order. */
  function CreditAccounts(accounts: seq<Account>): (cs: seq<Account>)
    ensures |cs| <= |accounts|
  {
    if accounts == [] then []
    else (if IsCreditAccount(accounts[0]) then [accounts[0]] else []) + CreditAccounts(accounts[1..])
  }

  /** The credit accounts are exactly the accounts of type 'credit'. */
  lemma {:induction false} CreditAccountsMembers(accounts: seq<Account>)
    ensures forall a :: a in CreditAccounts(accounts) <==> a in accounts && IsCreditAccount(a)
  {
    if accounts != [] {
      CreditAccountsMembers(accounts[1..]);
      assert accounts == [accounts[0]] + accounts[1..];
    }
  }

  /** Filtering keeps input order: the credit accounts of a concatenation are those of each part. */
  lemma {:induction false} CreditAccountsAppend(a: seq<Account>, b: seq<Account>)
    ensures CreditAccounts(a + b) == CreditAccounts(a) + CreditAccounts(b)
  {
    if a == [] {
      assert a + b == b;
    } else {
      var ab := a + b;
      assert ab[0] == a[0] && ab[1..] == a[1..] + b;
      CreditAccountsAppend(a[1..], b);
      var head := if IsCreditAccount(a[0]) then [a[0]] else [];
      var rest, tail := CreditAccounts(a[1..]), CreditAccounts(b);
      assert CreditAccounts(ab) == head + (rest + tail);
      assert CreditAccounts(a) == head + rest;
      assert head + (rest + tail) == (head + rest) + tail;
    }
  }
}

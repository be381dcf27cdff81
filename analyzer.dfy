/**
 * monarch_budgeting/analyzer.py: `CreditCardAnalyzer`, which keeps the credit-card accounts of an
 * account list, sorts their transactions into new purchases and payments, and sums both per card.
 * Tables are sequences of records.
 */
module Analyzer {
  import opened Results
  import opened Records

  /** `[acc['id'] for acc in accounts]` */
  function AccountIds(accounts: seq<Account>): (ids: seq<string>)
    ensures |ids| == |accounts|
    ensures forall i :: 0 <= i < |ids| ==> ids[i] == accounts[i].id
  {
    if accounts == [] then [] else [accounts[0].id] + AccountIds(accounts[1..])
  }

  /** The transaction was posted to the account with this id. */
  predicate OnAccount(t: Transaction, id: string)
  {
    t.accountId == Some(id)
  }

  /** Purchases are negative amounts and payments positive ones; a zero amount is neither. */
  datatype Side = Purchases | Payments

  predicate OnSide(t: Transaction, side: Side)
  {
    if side == Purchases then t.amount < 0.0 else t.amount > 0.0
  }

  /** The transactions on one of the given accounts that fall on the given side, in input order. */
  function CardTransactions(ts: seq<Transaction>, ids: seq<string>, side: Side): (r: seq<Transaction>)
    ensures |r| <= |ts|
    ensures forall t :: t in r <==> t in ts && t.accountId.Some? && t.accountId.value in ids && OnSide(t, side)
  {
    if ts == [] then []
    else
      var t := ts[0];
      (if t.accountId.Some? && t.accountId.value in ids && OnSide(t, side) then [t] else []) + CardTransactions(ts[1..], ids, side)
  }

  /** The dictionary of 'purchases' and 'payments' tables. */
  datatype Categorized = Categorized(purchases: seq<Transaction>, payments: seq<Transaction>)

  /** `df['amount'].sum()` over the rows posted to account `id`. */
  function SumOn(ts: seq<Transaction>, id: string): real
  {
    if ts == [] then 0.0 else (if OnAccount(ts[0], id) then ts[0].amount else 0.0) + SumOn(ts[1..], id)
  }

  /** One row of the payoff-progress table. */
  datatype ProgressRow = ProgressRow(
    accountId: string,
    accountName: string,
    totalPayments: real,
    totalNewPurchases: real,
    netDebtReduction: real,
    currentBalance: real)

  /** The row for one card: its payments, the size of its new purchases, and the difference. */
  function Progress(account: Account, c: Categorized): ProgressRow
  {
    var payments := SumOn(c.payments, account.id);
    var purchasesSum := SumOn(c.purchases, account.id);
    var purchases := if purchasesSum < 0.0 then -purchasesSum else purchasesSum;
    ProgressRow(account.id, account.displayName, payments, purchases, payments - purchases, account.currentBalance.GetOr(0.0))
  }

  class CreditCardAnalyzer {
    var transactions: seq<Transaction>
    var accounts: seq<Account>
    var creditCardAccounts: seq<Account>

    constructor(transactions: seq<Transaction>, accounts: seq<Account>)
      ensures this.transactions == transactions && this.accounts == accounts
      ensures creditCardAccounts == CreditAccounts(accounts)
    {
      this.transactions := transactions;
      this.accounts := accounts;
      creditCardAccounts := CreditAccounts(accounts);
    }

    /**
     * `categorize_transactions`: the transactions on credit-card accounts, split into purchases
     * (negative amounts) and payments (positive amounts), each in input order.
     */
    function Categorize(): (c: Categorized)
      reads this
      ensures transactions == [] ==> c == Categorized([], [])
      ensures forall t :: t in c.purchases <==>
                t in transactions && t.accountId.Some? && t.accountId.value in AccountIds(creditCardAccounts) && t.amount < 0.0
      ensures forall t :: t in c.payments <==>
                t in transactions && t.accountId.Some? && t.accountId.value in AccountIds(creditCardAccounts) && t.amount > 0.0
    {
      if transactions == [] then Categorized([], [])
      else
        var ids := AccountIds(creditCardAccounts);
        Categorized(CardTransactions(transactions, ids, Purchases), CardTransactions(transactions, ids, Payments))
    }

    /** `calculate_debt_payoff_progress`: one row per credit-card account, in order. */
    method CalculateDebtPayoffProgress() returns (rows: seq<ProgressRow>)
      ensures |rows| == |creditCardAccounts|
      ensures forall i :: 0 <= i < |rows| ==> rows[i] == Progress(creditCardAccounts[i], Categorize())
    {
      var categorized := Categorize();
      rows := [];
      var i := 0;
      while i < |creditCardAccounts|
        invariant 0 <= i <= |creditCardAccounts|
        invariant |rows| == i
        invariant forall k :: 0 <= k < i ==> rows[k] == Progress(creditCardAccounts[k], categorized)
      {
        var account := creditCardAccounts[i];
        var totalPayments := SumOn(categorized.payments, account.id);
        var purchasesSum := SumOn(categorized.purchases, account.id);
        var totalPurchases := if purchasesSum < 0.0 then -purchasesSum else purchasesSum;
        var netPayoff := totalPayments - totalPurchases;
        var row := ProgressRow(account.id, account.displayName, totalPayments, totalPurchases, netPayoff, account.currentBalance.GetOr(0.0));
        assert row == Progress(account, categorized);
        rows := rows + [row];
        i := i + 1;
      }
    }
  }

  // ---------------------------------------------------------------- properties

  /** The sum over the transactions a card filter keeps, one transaction at a time. */
  lemma SumOnStep(ts: seq<Transaction>, ids: seq<string>, side: Side, id: string)
    requires ts != []
    ensures var t := ts[0];
      var kept := t.accountId.Some? && t.accountId.value in ids && OnSide(t, side);
      SumOn(CardTransactions(ts, ids, side), id)
        == (if kept && OnAccount(t, id) then t.amount else 0.0) + SumOn(CardTransactions(ts[1..], ids, side), id)
  {
    var t := ts[0];
    var rest := CardTransactions(ts[1..], ids, side);
    if t.accountId.Some? && t.accountId.value in ids && OnSide(t, side) {
      assert CardTransactions(ts, ids, side) == [t] + rest;
      assert ([t] + rest)[1..] == rest;
    } else {
      assert CardTransactions(ts, ids, side) == [] + rest;
      assert [] + rest == rest;
    }
  }

  /** The card filter keeps input order: filtering a concatenation concatenates the filtered parts. */
  lemma {:induction false} CardTransactionsAppend(a: seq<Transaction>, b: seq<Transaction>, ids: seq<string>, side: Side)
    ensures CardTransactions(a + b, ids, side) == CardTransactions(a, ids, side) + CardTransactions(b, ids, side)
  {
    if a == [] {
      assert a + b == b;
    } else {
      var ab := a + b;
      assert ab[0] == a[0] && ab[1..] == a[1..] + b;
      CardTransactionsAppend(a[1..], b, ids, side);
      var t := a[0];
      var head := if t.accountId.Some? && t.accountId.value in ids && OnSide(t, side) then [t] else [];
      var rest, tail := CardTransactions(a[1..], ids, side), CardTransactions(b, ids, side);
      assert CardTransactions(ab, ids, side) == head + (rest + tail);
      assert CardTransactions(a, ids, side) == head + rest;
      Regroup(head, rest, tail);
    }
  }

  /** Payments sum to a non-negative amount and purchases to a non-positive one. */
  lemma {:induction false} SideSums(ts: seq<Transaction>, ids: seq<string>, id: string)
    ensures SumOn(CardTransactions(ts, ids, Payments), id) >= 0.0
    ensures SumOn(CardTransactions(ts, ids, Purchases), id) <= 0.0
  {
    if ts != [] {
      SideSums(ts[1..], ids, id);
      SumOnStep(ts, ids, Payments, id);
      SumOnStep(ts, ids, Purchases, id);
    }
  }

  /** On a card's own id, purchases and payments together are all its transactions: zero amounts add nothing. */
  lemma {:induction false} SidesCoverAccount(ts: seq<Transaction>, ids: seq<string>, id: string)
    requires id in ids
    ensures SumOn(CardTransactions(ts, ids, Payments), id) + SumOn(CardTransactions(ts, ids, Purchases), id) == SumOn(ts, id)
  {
    if ts != [] {
      SidesCoverAccount(ts[1..], ids, id);
      SumOnStep(ts, ids, Payments, id);
      SumOnStep(ts, ids, Purchases, id);
    }
  }

  /**
   * For every credit-card account the row reports non-negative payments and purchases, and the net
   * debt reduction is the net flow of all its transactions: payments less the size of the purchases.
   */
  lemma ProgressIsNetFlow(a: CreditCardAnalyzer, i: nat)
    requires i < |a.creditCardAccounts|
    ensures var row := Progress(a.creditCardAccounts[i], a.Categorize());
      && row.accountId == a.creditCardAccounts[i].id
      && row.totalPayments >= 0.0 && row.totalNewPurchases >= 0.0
      && row.netDebtReduction == row.totalPayments - row.totalNewPurchases
      && row.netDebtReduction == SumOn(a.transactions, a.creditCardAccounts[i].id)
  {
    var ids := AccountIds(a.creditCardAccounts);
    var id := a.creditCardAccounts[i].id;
    assert ids[i] == id;
    SideSums(a.transactions, ids, id);
    SidesCoverAccount(a.transactions, ids, id);
  }
}

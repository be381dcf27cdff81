/** monarch_budgeting/budget_data.py: categories, the category map, and the top-level budget metrics. */
module BudgetData {
  import opened Results
  import opened Text
  import opened OrderedDicts

  /** A category's kind, from its group's 'type'. */
  datatype CategoryType = Income | Expense | Transfer

  /**
   * `CategoryType(type_str.lower())`, with the ValueError for any other string caught and read
   * as an expense.
   */
  function ParseCategoryType(typeStr: string): (t: CategoryType)
    ensures t == Income <==> Lower(typeStr) == "income"
    ensures t == Transfer <==> Lower(typeStr) == "transfer"
    ensures t == Expense <==> Lower(typeStr) != "income" && Lower(typeStr) != "transfer"
  {
    var s := Lower(typeStr);
    if s == "income" then Income else if s == "transfer" then Transfer else Expense
  }

  datatype Category = Category(
    id: string,
    name: string,
    groupId: string,
    groupName: string,
    categoryType: CategoryType,
    systemCategory: Option<string>,
    isSystemCategory: bool)
  {
    predicate IsIncome() { categoryType == Income }
    predicate IsExpense() { categoryType == Expense }
    predicate IsTransfer() { categoryType == Transfer }

    /** The service marks card payments with the system category 'credit_card_payment'. */
    predicate IsCcPayment() { systemCategory == Some("credit_card_payment") }
  }

  /** Every category is of exactly one kind. */
  lemma ExactlyOneKind(c: Category)
    ensures c.IsIncome() <==> !c.IsExpense() && !c.IsTransfer()
    ensures c.IsExpense() <==> !c.IsIncome() && !c.IsTransfer()
    ensures c.IsTransfer() <==> !c.IsIncome() && !c.IsExpense()
  {
  }

  /** The spending of one category, split into card and cash spending. */
  datatype CategoryBreakdown = CategoryBreakdown(
    categoryId: string,
    categoryName: string,
    categoryType: CategoryType,
    groupName: string,
    actualAmount: real,
    ccAmount: real,
    cashAmount: real)
  {
    /** The share of the spending that went on credit cards, in percent (0 when nothing was spent). */
    function CcPercentage(): (p: real)
      ensures actualAmount == 0.0 ==> p == 0.0
      ensures actualAmount != 0.0 ==> p * actualAmount == ccAmount * 100.0
      ensures 0.0 <= ccAmount <= actualAmount ==> 0.0 <= p <= 100.0
    {
      if actualAmount == 0.0 then 0.0
      else
        var q := ccAmount / actualAmount;
        assert q * actualAmount == ccAmount;
        assert 0.0 <= ccAmount <= actualAmount ==> 0.0 <= q <= 1.0 by {
          if 0.0 <= ccAmount <= actualAmount {
            assert 0.0 < actualAmount && 0.0 <= q;
            assert (1.0 - q) * actualAmount == actualAmount - ccAmount;
          }
        }
        q * 100.0
    }
  }

  datatype TopLevelMetrics = TopLevelMetrics(
    totalIncome: real,
    totalExpenses: real,
    ccExpenses: real,
    cashExpenses: real,
    ccPayments: real,
    trueCashRemaining: real,
    totalNewCcSpending: real)
  {
    /**
     * `TopLevelMetrics.calculate`: expenses split into card and cash spending, and the cash left
     * once cash spending and card payments are taken from income.
     */
    static function Calculate(totalIncome: real, totalExpenses: real, ccExpenses: real, ccPayments: real): (m: TopLevelMetrics)
      ensures m.totalIncome == totalIncome && m.totalExpenses == totalExpenses
      ensures m.ccExpenses == ccExpenses && m.ccPayments == ccPayments
      ensures m.cashExpenses + m.ccExpenses == m.totalExpenses
      ensures m.trueCashRemaining + m.cashExpenses + m.ccPayments == m.totalIncome
      ensures m.totalNewCcSpending == m.ccExpenses
      ensures m.trueCashRemaining == totalIncome - totalExpenses + ccExpenses - ccPayments
    {
      var cashExpenses := totalExpenses - ccExpenses;
      var trueCashRemaining := totalIncome - cashExpenses - ccPayments;
      TopLevelMetrics(totalIncome, totalExpenses, ccExpenses, cashExpenses, ccPayments, trueCashRemaining, ccExpenses)
    }
  }

  // ---------------------------------------------------------------- parse_categories

  /** A raw category's 'group' as the service sends it; absent keys are None. */
  datatype RawGroup = RawGroup(id: Option<string>, name: Option<string>, groupType: Option<string>)

  /** One entry of the service's 'categories' list; absent keys are None. */
  datatype RawCategory = RawCategory(
    id: Option<string>,
    name: Option<string>,
    group: Option<RawGroup>,
    systemCategory: Option<string>,
    isSystemCategory: Option<bool>)

  /** `raw.get('id')` is truthy: present and not the empty string. */
  predicate HasId(raw: RawCategory)
  {
    raw.id.Some? && raw.id.value != ""
  }

  /** `raw.get('group', {})` read field by field with the defaults the parser uses. */
  function GroupOf(raw: RawCategory): RawGroup
  {
    raw.group.GetOr(RawGroup(None, None, None))
  }

  /** The category built from one raw entry: missing fields take their documented defaults. */
  function ToCategory(raw: RawCategory): (c: Category)
    requires HasId(raw)
    ensures c.id == raw.id.value
    ensures c.categoryType == ParseCategoryType(GroupOf(raw).groupType.GetOr("expense"))
    ensures raw.name.Some? ==> c.name == raw.name.value
    ensures raw.name.None? ==> c.name == "Unknown"
    ensures GroupOf(raw).id.Some? ==> c.groupId == GroupOf(raw).id.value
    ensures GroupOf(raw).id.None? ==> c.groupId == ""
    ensures GroupOf(raw).name.Some? ==> c.groupName == GroupOf(raw).name.value
    ensures GroupOf(raw).name.None? ==> c.groupName == "Other"
    ensures c.systemCategory == raw.systemCategory
    ensures raw.isSystemCategory.Some? ==> c.isSystemCategory == raw.isSystemCategory.value
    ensures raw.isSystemCategory.None? ==> !c.isSystemCategory
  {
    var group := GroupOf(raw);
    Category(
      raw.id.value,
      raw.name.GetOr("Unknown"),
      group.id.GetOr(""),
      group.name.GetOr("Other"),
      ParseCategoryType(group.groupType.GetOr("expense")),
      raw.systemCategory,
      raw.isSystemCategory.GetOr(false))
  }

  /** Categories keyed by id, in the order their ids first appeared. */
  type CategoryMap = Dict<string, Category>

  /** The map `parse_categories` builds from a prefix of the raw list. */
  function Parsed(raws: seq<RawCategory>): (d: CategoryMap)
    ensures Valid(d)
  {
    if raws == [] then Empty()
    else
      var d := Parsed(raws[..|raws| - 1]);
      var raw := raws[|raws| - 1];
      if HasId(raw) then Put(d, raw.id.value, ToCategory(raw)) else d
  }

  /**
   * `parse_categories`: every entry with an id becomes a category under that id; entries without
   * one are skipped, and a later entry with the same id replaces the earlier one.
   */
  method ParseCategories(raws: seq<RawCategory>) returns (d: CategoryMap)
    ensures Valid(d) && d == Parsed(raws)
    ensures forall k :: k in d.entries <==> k != "" && exists i :: 0 <= i < |raws| && raws[i].id == Some(k)
    ensures forall k :: k in d.entries ==> d.entries[k].id == k
  {
    d := Empty();
    var i := 0;
    while i < |raws|
      invariant 0 <= i <= |raws|
      invariant d == Parsed(raws[..i])
    {
      assert raws[..i + 1][..i] == raws[..i];
      var raw := raws[i];
      if raw.id.None? || raw.id.value == "" {
        i := i + 1;
        continue;
      }
      d := Put(d, raw.id.value, ToCategory(raw));
      i := i + 1;
    }
    assert raws[..|raws|] == raws;
    ParsedKeys(raws);
    forall k | k in d.entries
      ensures d.entries[k].id == k
    {
      var _ := ParsedLastWins(raws, k);
    }
  }

  /** The keys are exactly the non-empty ids in the raw list. */
  lemma {:induction false} ParsedKeys(raws: seq<RawCategory>)
    ensures forall k :: k in Parsed(raws).entries <==> k != "" && exists i :: 0 <= i < |raws| && raws[i].id == Some(k)
  {
    if raws != [] {
      var init := raws[..|raws| - 1];
      ParsedKeys(init);
      forall k
        ensures k in Parsed(raws).entries <==> k != "" && exists i :: 0 <= i < |raws| && raws[i].id == Some(k)
      {
        if k != "" && exists i :: 0 <= i < |raws| && raws[i].id == Some(k) {
          var i :| 0 <= i < |raws| && raws[i].id == Some(k);
          if i < |raws| - 1 {
            assert init[i] == raws[i];
          }
        }
        if k in Parsed(init).entries {
          var i :| 0 <= i < |init| && init[i].id == Some(k);
          assert raws[i] == init[i];
        }
      }
    }
  }

  /** The category under an id is the one built from the last entry with that id. */
  lemma {:induction false} ParsedLastWins(raws: seq<RawCategory>, k: string) returns (i: nat)
    requires k in Parsed(raws).entries
    ensures i < |raws| && raws[i].id == Some(k) && HasId(raws[i])
    ensures Parsed(raws).entries[k] == ToCategory(raws[i])
    ensures forall j :: i < j < |raws| ==> raws[j].id != Some(k)
  {
    var init := raws[..|raws| - 1];
    var last := raws[|raws| - 1];
    if HasId(last) && last.id.value == k {
      i := |raws| - 1;
    } else {
      i := ParsedLastWins(init, k);
      assert raws[i] == init[i];
      ParsedKeys(raws);
    }
  }

  /**
   * The keys keep the order in which ids first appeared: before any entry carrying a later
   * key, an entry carrying each earlier key has already been seen.
   */
  lemma {:induction false} ParsedOrder(raws: seq<RawCategory>, a: nat, b: nat, j: nat) returns (i: nat)
    requires a < b < |Parsed(raws).keys|
    requires j < |raws| && raws[j].id == Some(Parsed(raws).keys[b])
    ensures i < j && raws[i].id == Some(Parsed(raws).keys[a])
  {
    var init := raws[..|raws| - 1];
    var d, d' := Parsed(init), Parsed(raws);
    ParsedKeys(init);
    ParsedGrowth(raws, a);
    ParsedGrowth(raws, b);
    if j < |raws| - 1 {
      assert init[j] == raws[j];
      assert d'.keys[b] in d.entries;
      i := ParsedOrder(init, a, b, j);
      assert raws[i] == init[i];
    } else {
      assert d'.keys[a] in d.entries;
      var i' :| 0 <= i' < |init| && init[i'].id == Some(d'.keys[a]);
      i := i';
      assert raws[i] == init[i];
    }
  }

  /**
   * One more entry keeps every earlier key in its place; a position past the earlier keys holds
   * the last entry's id, which was not a key before.
   */
  lemma ParsedGrowth(raws: seq<RawCategory>, a: nat)
    requires raws != [] && a < |Parsed(raws).keys|
    ensures var d, d' := Parsed(raws[..|raws| - 1]), Parsed(raws);
      || (a < |d.keys| && d'.keys[a] == d.keys[a])
      || (a == |d.keys| && d'.keys[a] !in d.entries && raws[|raws| - 1].id == Some(d'.keys[a]))
  {
  }

  // ---------------------------------------------------------------- lookups

  /**
   * `get_category_by_name`: the first category, in key order, whose lower-cased name equals
   * the lower-cased query; None when there is none.
   */
  method GetCategoryByName(d: CategoryMap, name: string) returns (r: Option<Category>)
    requires Valid(d)
    ensures r.None? <==> forall c :: c in Values(d) ==> Lower(c.name) != Lower(name)
    ensures r.Some? ==> exists i :: 0 <= i < |Values(d)| && Values(d)[i] == r.value && Lower(r.value.name) == Lower(name)
                          && forall j :: 0 <= j < i ==> Lower(Values(d)[j].name) != Lower(name)
  {
    var nameLower := Lower(name);
    var values := Values(d);
    var i := 0;
    while i < |values|
      invariant 0 <= i <= |values|
      invariant forall j :: 0 <= j < i ==> Lower(values[j].name) != nameLower
    {
      if Lower(values[i].name) == nameLower {
        return Some(values[i]);
      }
      i := i + 1;
    }
    return None;
  }

  /** The categories of the given type, in order. */
  function Filter(cs: seq<Category>, t: CategoryType): (r: seq<Category>)
    ensures forall c :: c in r <==> c in cs && c.categoryType == t
    ensures |r| <= |cs|
  {
    if cs == [] then []
    else (if cs[0].categoryType == t then [cs[0]] else []) + Filter(cs[1..], t)
  }

  /** The type filter keeps input order: filtering a concatenation concatenates the filtered parts. */
  lemma {:induction false} FilterAppend(a: seq<Category>, b: seq<Category>, t: CategoryType)
    ensures Filter(a + b, t) == Filter(a, t) + Filter(b, t)
  {
    if a == [] {
      assert a + b == b;
    } else {
      var ab := a + b;
      assert ab[0] == a[0] && ab[1..] == a[1..] + b;
      FilterAppend(a[1..], b, t);
      var head := if a[0].categoryType == t then [a[0]] else [];
      var rest, tail := Filter(a[1..], t), Filter(b, t);
      assert Filter(ab, t) == head + (rest + tail);
      assert Filter(a, t) == head + rest;
      Regroup(head, rest, tail);
    }
  }

  /** `get_categories_by_type`: exactly the categories of that type, in key order. */
  function CategoriesByType(d: CategoryMap, t: CategoryType): (r: seq<Category>)
    requires Valid(d)
    ensures forall c :: c in r <==> c in Values(d) && c.categoryType == t
  {
    Filter(Values(d), t)
  }

  /** The three type filters split the categories between them: every category lands in exactly one. */
  lemma {:induction false} FilterPartition(cs: seq<Category>)
    ensures |Filter(cs, Income)| + |Filter(cs, Expense)| + |Filter(cs, Transfer)| == |cs|
  {
    if cs != [] {
      FilterPartition(cs[1..]);
    }
  }

  function IncomeCategories(d: CategoryMap): (r: seq<Category>)
    requires Valid(d)
    ensures forall c :: c in r <==> c in Values(d) && c.IsIncome()
  {
    CategoriesByType(d, Income)
  }

  function ExpenseCategories(d: CategoryMap): (r: seq<Category>)
    requires Valid(d)
    ensures forall c :: c in r <==> c in Values(d) && c.IsExpense()
  {
    CategoriesByType(d, Expense)
  }

  function TransferCategories(d: CategoryMap): (r: seq<Category>)
    requires Valid(d)
    ensures forall c :: c in r <==> c in Values(d) && c.IsTransfer()
  {
    CategoriesByType(d, Transfer)
  }
}

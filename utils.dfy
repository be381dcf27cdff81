/** The shared helpers of monarch_budgeting/utils.py: currency text, month ranges, budget totals. */
module Utils {
  import opened Results
  import opened Text
  import opened Numerals
  import opened Dates
  import opened Records

  // ---------------------------------------------------------------- format_currency

  /** `f"{n:,}"`: the digits of n with a comma between groups of three. */
  function Grouped(n: nat): string
  {
    if n < 1000 then NatToString(n) else Grouped(n / 1000) + "," + PadZeros(n % 1000, 3)
  }

  /** `f"{x:,.2f}"` for the non-negative amount x = cents / 100, given exactly in cents. */
  function Amount(cents: nat): string
  {
    Grouped(cents / 100) + "." + PadZeros(cents % 100, 2)
  }

  /**
   * `format_currency(amount, show_sign)` with the amount given in whole cents:
   * "-$" and the absolute value for negatives, "+$" only for positives when
   * show_sign is set, and a bare "$" otherwise (so zero is "$0.00").
   */
  function FormatCurrency(cents: int, showSign: bool): (s: string)
    ensures |s| >= 2
    ensures s[0] == '-' <==> cents < 0
    ensures s[0] == '+' <==> showSign && cents > 0
    ensures s[0] == '$' <==> cents == 0 || (cents > 0 && !showSign)
    ensures s[0] != '$' ==> s[1] == '$'
  {
    if cents < 0 then "-$" + Amount(-cents)
    else if showSign && cents > 0 then "+$" + Amount(cents)
    else "$" + Amount(cents)
  }

  /** Round trip: the text reads back as the amount it was made from, sign included. */
  lemma FormatCurrencyParses(cents: int, showSign: bool)
    ensures ParseCurrency(FormatCurrency(cents, showSign)) == Some(cents)
  {
    var size: nat := if cents < 0 then -cents else cents;
    var a := Amount(size);
    AmountValue(size);
    ParsePrefixed(a);
    if cents < 0 {
      assert FormatCurrency(cents, showSign) == "-$" + a;
    } else if showSign && cents > 0 {
      assert FormatCurrency(cents, showSign) == "+$" + a;
    } else {
      assert FormatCurrency(cents, showSign) == "$" + a;
    }
  }

  /** Each of the three prefixes is read off and the digits after it are read as the size of the amount. */
  lemma ParsePrefixed(a: string)
    ensures ParseCurrency("-$" + a) == Some(-(DigitsValue(DigitsOf(a)) as int))
    ensures ParseCurrency("+$" + a) == Some(DigitsValue(DigitsOf(a)))
    ensures ParseCurrency("$" + a) == Some(DigitsValue(DigitsOf(a)))
  {
    ParseSigned('-', a);
    ParseSigned('+', a);
    var s := "$" + a;
    assert s[0] == '$' && s[1..] == a;
  }

  lemma ParseSigned(sign: char, a: string)
    requires sign == '-' || sign == '+'
    ensures var v := DigitsValue(DigitsOf(a));
      ParseCurrency([sign, '$'] + a) == Some(if sign == '-' then -(v as int) else v)
  {
    var s := [sign, '$'] + a;
    assert s[0] == sign && s[1] == '$' && s[2..] == a;
  }

  /** Reads a currency string back into cents: an optional "-" or "+" sign, "$", then digits. */
  function ParseCurrency(s: string): Option<int>
  {
    if |s| >= 2 && s[0] == '-' && s[1] == '$' then Some(-(DigitsValue(DigitsOf(s[2..])) as int))
    else if |s| >= 2 && s[0] == '+' && s[1] == '$' then Some(DigitsValue(DigitsOf(s[2..])))
    else if |s| >= 1 && s[0] == '$' then Some(DigitsValue(DigitsOf(s[1..])))
    else None
  }

  /** A separator between two numerals drops out of their digits. */
  lemma SeparatedValue(g: string, sep: char, t: string)
    requires !IsDigit(sep) && AllDigits(t)
    ensures DigitsValue(DigitsOf(g + [sep] + t)) == DigitsValue(DigitsOf(g)) * Pow10(|t|) + DigitsValue(t)
  {
    DigitsOfAppend(g + [sep], t);
    DigitsOfAppend(g, [sep]);
    DigitsOfDigits(t);
    assert DigitsOf([sep]) == [] by {
      assert [sep][1..] == [];
    }
    assert DigitsOf(g + [sep]) == DigitsOf(g);
    DigitsValueAppend(DigitsOf(g), t);
  }

  /** A number below 10^k prints with at most k digits. */
  lemma {:induction false} NatToStringLength(n: nat, k: nat)
    requires 1 <= k && n < Pow10(k)
    ensures |NatToString(n)| <= k
  {
    if n >= 10 {
      NatToStringLength(n / 10, k - 1);
    }
  }

  /** A number below 10^k padded to k places has exactly k digits. */
  lemma PaddedWidth(n: nat, k: nat)
    requires 1 <= k && n < Pow10(k)
    ensures |PadZeros(n, k)| == k
  {
    NatToStringLength(n, k);
  }

  /** The digits of the grouped form of n denote n. */
  lemma {:induction false} GroupedValue(n: nat)
    ensures DigitsValue(DigitsOf(Grouped(n))) == n
  {
    if n < 1000 {
      DigitsOfDigits(NatToString(n));
    } else {
      var q, r := n / 1000, n % 1000;
      var g, t := Grouped(q), PadZeros(r, 3);
      assert Grouped(n) == g + [','] + t;
      assert Pow10(3) == 1000 by {
        assert Pow10(1) == 10 && Pow10(2) == 100;
      }
      PaddedWidth(r, 3);
      GroupedValue(q);
      SeparatedValue(g, ',', t);
      Recombine(DigitsValue(DigitsOf(g)), Pow10(|t|), DigitsValue(t), n, 1000);
    }
  }

  /** The digits of the two-decimal form of cents/100 denote the cents. */
  lemma AmountValue(cents: nat)
    ensures DigitsValue(DigitsOf(Amount(cents))) == cents
  {
    var q, r := cents / 100, cents % 100;
    var g, t := Grouped(q), PadZeros(r, 2);
    assert Amount(cents) == g + ['.'] + t;
    assert Pow10(2) == 100 by {
      assert Pow10(1) == 10;
    }
    PaddedWidth(r, 2);
    GroupedValue(q);
    SeparatedValue(g, '.', t);
    Recombine(DigitsValue(DigitsOf(g)), Pow10(|t|), DigitsValue(t), cents, 100);
  }

  /** Quotient times base plus remainder gives the number back. */
  lemma Recombine(hi: nat, p: nat, lo: nat, n: nat, base: nat)
    requires base > 0 && hi == n / base && p == base && lo == n % base
    ensures hi * p + lo == n
  {
  }

  // ---------------------------------------------------------------- month ranges

  /** Python's `datetime` takes its arguments as C ints; larger ones raise OverflowError. */
  predicate FitsCInt(i: int)
  {
    -0x8000_0000 <= i < 0x8000_0000
  }

  /**
   * `parse_month("YYYY-MM")`: split at '-', exactly two integer parts, then the first and last
   * day of that month. Every ValueError on the way is reported as an invalid month format;
   * an integer too large for a C int makes `datetime` raise OverflowError, which escapes.
   */
  function ParseMonth(s: string): (r: Result<MonthSpan>)
    ensures |Split(s, '-')| != 2 ==> r == Err(InvalidMonthFormat(s))
    ensures r.Ok? ==> ValidDate(r.value.start) && r.value.start.day == 1
    ensures r.Ok? ==> r.value.end == LastDayOfMonth(r.value.start.year, r.value.start.month)
    ensures r.Err? ==> r.error == InvalidMonthFormat(s) || r.error == IntegerOverflow
  {
    var parts := Split(s, '-');
    if |parts| != 2 then Err(InvalidMonthFormat(s))
    else
      var year, month := ParseInt(parts[0]), ParseInt(parts[1]);
      if year.None? || month.None? then Err(InvalidMonthFormat(s))
      else MonthOf(s, year.value, month.value)
  }

  /** The range `datetime` gives for the parsed parts of s, or the error it raises. */
  function MonthOf(s: string, year: int, month: int): (r: Result<MonthSpan>)
    ensures r.Ok? <==> FitsCInt(year) && FitsCInt(month) && MonthRange(year, month).Ok?
    ensures r.Ok? ==> r == MonthRange(year, month)
    ensures r.Err? ==> r.error == InvalidMonthFormat(s) || r.error == IntegerOverflow
  {
    if !FitsCInt(year) || !FitsCInt(month) then Err(IntegerOverflow)
    else if MonthRange(year, month).Ok? then MonthRange(year, month)
    else Err(InvalidMonthFormat(s))
  }

  /** A numeral holds no '-'. */
  lemma NoDash(s: string)
    requires AllDigits(s)
    ensures '-' !in s
  {
    forall i | 0 <= i < |s|
      ensures s[i] != '-'
    {
      assert IsDigit(s[i]);
    }
  }

  /** The month key splits at '-' into the year's digits and the month's, with an empty first part for a negative year. */
  lemma SplitMonthKey(year: int, month: nat)
    ensures year >= 0 ==> Split(MonthKey(year, month), '-') == [NatToString(year), PadZeros(month, 2)]
    ensures year < 0 ==> Split(MonthKey(year, month), '-') == ["", NatToString(-year), PadZeros(month, 2)]
  {
    var m := PadZeros(month, 2);
    var y := NatToString(if year < 0 then -year else year);
    NoDash(m);
    NoDash(y);
    SplitPair(y, m, '-');
    var body := y + ['-'] + m;
    if year >= 0 {
      assert MonthKey(year, month) == body;
    } else {
      var key := ['-'] + body;
      assert MonthKey(year, month) == key;
      assert key[1..] == body;
    }
  }

  /**
   * Round trip: the month key of (year, month) parses back to that month's range exactly when
   * the year is one `datetime` accepts and the month is not December 9999.
   */
  lemma ParseMonthKey(year: int, month: int)
    requires 1 <= month <= 12
    ensures ParseMonth(MonthKey(year, month)).Ok? <==> MinYear <= year <= MaxYear && !(year == MaxYear && month == 12)
    ensures ParseMonth(MonthKey(year, month)).Ok? ==>
              ParseMonth(MonthKey(year, month)).value == MonthSpan(Date(year, month, 1), LastDayOfMonth(year, month))
  {
    var key := MonthKey(year, month);
    if year >= 0 {
      MonthKeyFields(year, month);
      var r := ParseMonth(key);
      if MinYear <= year <= MaxYear {
        assert Pow10(4) == 10000 by {
          assert Pow10(2) == 100 by {
            assert Pow10(1) == 10;
          }
        }
        NumeralLength(year, 4);
        assert FitsCInt(year) && FitsCInt(month);
        assert r.Ok? <==> MonthRange(year, month).Ok?;
      } else {
        assert !MonthRange(year, month).Ok?;
        assert r.Err?;
      }
    } else {
      assert ParseMonth(key) == Err(InvalidMonthFormat(key));
    }
  }

  /**
   * A month key with a non-negative year splits into exactly that year and month; a year of
   * more than `MaxStrDigits` digits is refused by `int()` and reported as an invalid format.
   */
  lemma MonthKeyFields(year: int, month: int)
    requires 1 <= month <= 12 && year >= 0
    ensures |NatToString(year)| <= MaxStrDigits ==>
              ParseMonth(MonthKey(year, month)) == MonthOf(MonthKey(year, month), year, month)
    ensures |NatToString(year)| > MaxStrDigits ==>
              ParseMonth(MonthKey(year, month)) == Err(InvalidMonthFormat(MonthKey(year, month)))
  {
    var key := MonthKey(year, month);
    SplitMonthKey(year, month);
    var parts := Split(key, '-');
    ParseDigits(parts[0]);
    ParseDigits(parts[1]);
    assert Pow10(2) == 100 by {
      assert Pow10(1) == 10;
    }
    NumeralLength(month, 2);
    assert ParseInt(parts[1]) == Some(month);
  }

  /** A year numeral of more than `MaxStrDigits` digits is refused by `int()`: an invalid month format, not an overflow. */
  lemma OverlongYear(year: string, month: string)
    requires year != [] && AllDigits(year) && |year| > MaxStrDigits
    requires month != [] && AllDigits(month)
    ensures ParseMonth(year + "-" + month) == Err(InvalidMonthFormat(year + "-" + month))
  {
    NoDash(year);
    NoDash(month);
    SplitPair(year, month, '-');
    ParseDigits(year);
  }

  /** `get_current_month_range()` for the given today: the range of today's month. */
  function GetCurrentMonthRange(today: Date): (r: Result<MonthSpan>)
    requires ValidDate(today)
    ensures r.Ok? <==> !(today.year == MaxYear && today.month == 12)
    ensures r.Ok? ==> r.value.start == Date(today.year, today.month, 1)
    ensures r.Ok? ==> r == ParseMonth(MonthKey(today.year, today.month))
  {
    ParseMonthKey(today.year, today.month);
    MonthRange(today.year, today.month)
  }

  /**
   * `get_previous_month_range()` for the given today: December 1 to 31 of the previous year in
   * January, otherwise the first of the previous month to the day before the first of this month.
   */
  function GetPreviousMonthRange(today: Date): (r: Result<MonthSpan>)
    requires ValidDate(today)
    ensures r.Ok? <==> !(today.year == MinYear && today.month == 1)
    ensures r.Ok? ==> r.value.end == PrevDay(Date(today.year, today.month, 1))
    ensures r.Ok? ==> r == MonthRange(PrevMonth(today.year, today.month).0, PrevMonth(today.year, today.month).1)
  {
    if today.month == 1 then
      if today.year - 1 < MinYear then Err(DateOutOfRange)
      else Ok(MonthSpan(Date(today.year - 1, 12, 1), Date(today.year - 1, 12, 31)))
    else
      Ok(MonthSpan(Date(today.year, today.month - 1, 1), PrevDay(Date(today.year, today.month, 1))))
  }

  // ---------------------------------------------------------------- budget totals

  /** Which amount of a {'plannedAmount', 'actualAmount'} pair a caller reads. */
  datatype AmountKind = Planned | Actual

  datatype BudgetTotals = BudgetTotals(totalIncome: real, totalExpenses: real)

  /** `side.get(kind, 0)` on a totals entry that may itself be missing (`{}`). */
  function AmountOf(side: Option<AmountPair>, kind: AmountKind): real
  {
    match side
    case None => 0.0
    case Some(p) => (if kind == Planned then p.plannedAmount else p.actualAmount).GetOr(0.0)
  }

  /**
   * `parse_budget_totals`: zero totals when 'totalsByMonth' is empty, otherwise the amounts of its
   * first entry (missing amounts read as zero). The planned amounts are what the reports use; the
   * editor reads the actual amounts the same way.
   */
  function ParseBudgetTotals(data: BudgetResponse, kind: AmountKind): (t: BudgetTotals)
    ensures data.totalsByMonth == [] ==> t == BudgetTotals(0.0, 0.0)
    ensures data.totalsByMonth != [] ==>
              t == BudgetTotals(AmountOf(data.totalsByMonth[0].totalIncome, kind),
                                AmountOf(data.totalsByMonth[0].totalExpenses, kind))
  {
    var totals := data.totalsByMonth;
    if totals == [] then BudgetTotals(0.0, 0.0)
    else BudgetTotals(AmountOf(totals[0].totalIncome, kind), AmountOf(totals[0].totalExpenses, kind))
  }

  /** Only the first month's entry is read: later entries never change the totals. */
  lemma {:induction false} BudgetTotalsFirstEntryOnly(data: BudgetResponse, kind: AmountKind)
    requires data.totalsByMonth != []
    ensures ParseBudgetTotals(data, kind) == ParseBudgetTotals(data.(totalsByMonth := data.totalsByMonth[..1]), kind)
  {
  }
}

/**
 * DashboardServiceImpl: the figures of the dashboard, the current month's
 * spending by category, and the spending of the last months, computed from the
 * expense, savings goal, split bill and budget collections.
 */
module Dashboard {
  import opened Errors
  import opened Money
  import opened Calendar
  import opened ExpenseRepository
  import ES = ExpenseService
  import BS = BudgetService
  import SG = SavingsGoals
  import SB = SplitBills

  /** DashboardStatsDto. */
  datatype DashboardStats = DashboardStats(
    totalExpenses: int, totalSavings: int, currentMonthExpenses: int,
    budgetRemaining: int, budgetLimit: int, budgetPercentUsed: int,
    activeGoals: int, completedGoals: int, pendingSplitBills: int)

  /**
   * getStats: all-time and current-month spending, the saved total and the
   * goal counts, the current month's budget figures (all zero without a
   * budget), and the number of the caller's unsettled split bills.
   */
  function GetStats(expenses: seq<Expense>, goals: seq<SG.SavingsGoal>, bills: seq<SB.SplitBill>,
                    budgets: seq<BS.Budget>, userId: string, current: YearMonth): (s: DashboardStats)
    ensures s.totalExpenses == Total(FindByUserId(expenses, userId))
    ensures s.currentMonthExpenses == Total(InMonth(expenses, userId, current))
    ensures var owned := SG.OwnedGoals(goals, userId);
      && s.totalSavings == SG.SumSaved(owned)
      && s.activeGoals == SG.CountActive(owned)
      && s.completedGoals == SG.CountCompleted(owned)
      && s.activeGoals + s.completedGoals == |owned|
    ensures s.pendingSplitBills == SB.CountUnsettled(SB.OwnedBills(bills, userId))
    ensures BS.FindByKey(budgets, userId, current.month, current.year).None? ==>
      s.budgetLimit == 0 && s.budgetRemaining == 0 && s.budgetPercentUsed == 0
    ensures BS.FindByKey(budgets, userId, current.month, current.year).Some? ==>
      var b := budgets[BS.FindByKey(budgets, userId, current.month, current.year).value];
      && s.budgetLimit == b.monthlyLimit
      && s.budgetRemaining + s.currentMonthExpenses == s.budgetLimit
      && (s.budgetLimit <= 0 ==> s.budgetPercentUsed == 0)
      && (s.budgetLimit > 0 ==>
            2 * Abs(s.currentMonthExpenses * 10000) - s.budgetLimit < 2 * Abs(s.budgetPercentUsed) * s.budgetLimit
                                                                   <= 2 * Abs(s.currentMonthExpenses * 10000) + s.budgetLimit)
      && (s.budgetLimit > 0 && s.currentMonthExpenses >= 0 ==> s.budgetPercentUsed >= 0)
      && (s.budgetLimit > 0 && s.currentMonthExpenses <= 0 ==> s.budgetPercentUsed <= 0)
  {
    var totalExpenses := Total(FindByUserId(expenses, userId));
    var monthTotal := Total(FindByUserIdAndDateBetween(expenses, userId, AtStartOfMonth(current), AtEndOfMonth(current)));
    var owned := SG.OwnedGoals(goals, userId);
    var totalSavings := SG.SumSaved(owned);
    var activeGoals := SG.CountActive(owned);
    SG.CompletedPlusActive(owned);
    var found := BS.FindByKey(budgets, userId, current.month, current.year);
    var limit := if found.Some? then budgets[found.value].monthlyLimit else 0;
    var remaining := if found.Some? then limit - monthTotal else 0;
    var percentUsed := if found.Some? && limit > 0 then Percent(monthTotal, limit) else 0;
    DashboardStats(totalExpenses, totalSavings, monthTotal, remaining, limit, percentUsed,
                   activeGoals, |owned| - activeGoals, SB.CountUnsettled(SB.OwnedBills(bills, userId)))
  }

  /**
   * The dashboard tells the same story as the other services: its goal counts
   * and saved total are the savings progress figures, its pending bills the
   * split bill summary's, and its month total the monthly statistics' total.
   */
  lemma StatsAgreeWithServices(expenses: seq<Expense>, goals: seq<SG.SavingsGoal>, bills: seq<SB.SplitBill>,
                               budgets: seq<BS.Budget>, userId: string, current: YearMonth)
    ensures var s := GetStats(expenses, goals, bills, budgets, userId, current);
      && s.activeGoals == SG.GetProgress(goals, userId).activeGoals
      && s.completedGoals == SG.GetProgress(goals, userId).completedGoals
      && s.totalSavings == SG.GetProgress(goals, userId).totalSavedAmount
      && s.pendingSplitBills == SB.GetSummary(bills, userId).pendingBills
      && ES.GetMonthlyStats(expenses, userId, None, None, current).Ok?
      && s.currentMonthExpenses == ES.GetMonthlyStats(expenses, userId, None, None, current).value.totalAmount
  {
  }

  /** The dashboard's budget figures are those of the current budget as getCurrentBudget enriches it. */
  lemma StatsBudgetAgrees(expenses: seq<Expense>, goals: seq<SG.SavingsGoal>, bills: seq<SB.SplitBill>,
                          budgets: seq<BS.Budget>, userId: string, current: YearMonth)
    requires BS.ValidBudgets(budgets)
    ensures var s := GetStats(expenses, goals, bills, budgets, userId, current);
      var found := BS.FindByKey(budgets, userId, current.month, current.year);
      found.Some? ==>
        var v := BS.Enrich(budgets[found.value], expenses);
        && s.budgetLimit == v.budget.monthlyLimit
        && s.budgetRemaining == v.remaining
        && s.budgetPercentUsed == v.percentUsed
  {
    var s := GetStats(expenses, goals, bills, budgets, userId, current);
    var found := BS.FindByKey(budgets, userId, current.month, current.year);
    if found.Some? {
      var b := budgets[found.value];
      assert b in budgets;
      var v := BS.Enrich(b, expenses);
      if b.monthlyLimit > 0 {
        DivHalfUpUnique(s.currentMonthExpenses * 10000, b.monthlyLimit, s.budgetPercentUsed);
        DivHalfUpUnique(v.spent * 10000, b.monthlyLimit, v.percentUsed);
      }
    }
  }

  /** CategoryBreakdownDto. */
  datatype CategoryBreakdown = CategoryBreakdown(category: string, amount: int, count: int, percentage: int)

  /** Each aggregation entry with its share of the given total, HALF_UP, 0 unless the total is positive. */
  function WithShares(stats: seq<CategoryStats>, total: int): (r: seq<CategoryBreakdown>)
    ensures |r| == |stats|
    ensures forall i :: 0 <= i < |r| ==>
      && r[i].category == stats[i].category && r[i].amount == stats[i].total && r[i].count == stats[i].count
      && (total <= 0 ==> r[i].percentage == 0)
      && (total > 0 ==> r[i].percentage == Percent(stats[i].total, total))
      && (total > 0 && stats[i].total >= 0 ==> r[i].percentage >= 0)
      && (total > 0 && stats[i].total <= 0 ==> r[i].percentage <= 0)
  {
    if stats == [] then []
    else
      var pct := if total > 0 then Percent(stats[0].total, total) else 0;
      [CategoryBreakdown(stats[0].category, stats[0].total, stats[0].count, pct)] + WithShares(stats[1..], total)
  }

  /**
   * With a positive total, each share is the entry's amount in hundredths of a
   * percent of it, HALF_UP: within half a hundredth, and of the amount's sign.
   */
  lemma WithSharesBounds(stats: seq<CategoryStats>, total: int)
    requires total > 0
    ensures var r := WithShares(stats, total);
      forall i :: 0 <= i < |r| ==>
        && 2 * Abs(r[i].amount * 10000) - total < 2 * Abs(r[i].percentage) * total
                                               <= 2 * Abs(r[i].amount * 10000) + total
        && (r[i].amount >= 0 ==> r[i].percentage >= 0)
        && (r[i].amount <= 0 ==> r[i].percentage <= 0)
  {
    var r := WithShares(stats, total);
    forall i | 0 <= i < |r|
      ensures 2 * Abs(r[i].amount * 10000) - total < 2 * Abs(r[i].percentage) * total
                                                  <= 2 * Abs(r[i].amount * 10000) + total
      ensures r[i].amount >= 0 ==> r[i].percentage >= 0
      ensures r[i].amount <= 0 ==> r[i].percentage <= 0
    {
      assert r[i].percentage == Percent(stats[i].total, total) && r[i].amount == stats[i].total;
      assert Abs(total) == total;
    }
  }

  /** A breakdown read back as aggregation entries. */
  function AsStats(r: seq<CategoryBreakdown>): (stats: seq<CategoryStats>)
    ensures |stats| == |r|
    ensures forall i :: 0 <= i < |r| ==> stats[i] == CategoryStats(r[i].category, r[i].amount, r[i].count)
  {
    if r == [] then [] else [CategoryStats(r[0].category, r[0].amount, r[0].count)] + AsStats(r[1..])
  }

  /**
   * r is the breakdown of the records `matched`: read back as aggregation
   * entries it is their aggregation (one entry per category, with its sum and
   * count, largest first), each percentage is the entry's HALF_UP share of the
   * records' total, of the entry's sign (0 when that total is not positive),
   * and it is empty
   * exactly when nothing matched.
   */
  predicate IsBreakdownOf(matched: seq<Expense>, r: seq<CategoryBreakdown>) {
    && IsCategoryStatsOf(matched, AsStats(r))
    && (var total := Total(matched);
        forall i :: 0 <= i < |r| ==>
          && (total <= 0 ==> r[i].percentage == 0)
          && (total > 0 ==>
                2 * Abs(r[i].amount * 10000) - total < 2 * Abs(r[i].percentage) * total
                                                    <= 2 * Abs(r[i].amount * 10000) + total)
          && (total > 0 && r[i].amount >= 0 ==> r[i].percentage >= 0)
          && (total > 0 && r[i].amount <= 0 ==> r[i].percentage <= 0))
    && (|r| == 0 <==> |matched| == 0)
  }

  /** Sharing out any aggregation output of the records by its own total gives their breakdown. */
  lemma BreakdownOfStats(matched: seq<Expense>, stats: seq<CategoryStats>)
    requires IsCategoryStatsOf(matched, stats)
    ensures IsBreakdownOf(matched, WithShares(stats, SumTotals(stats)))
  {
    var total := SumTotals(stats);
    CategoryStatsTotals(matched, stats);
    CategoryStatsEmpty(matched, stats);
    AsStatsWithShares(stats, total);
    if total > 0 {
      WithSharesBounds(stats, total);
    }
  }

  /**
   * getSpendingBreakdown: one entry per category the caller spent on this
   * month, with its sum and count, largest first, and its percentage of the
   * month's total.
   */
  function GetSpendingBreakdown(expenses: seq<Expense>, userId: string, current: YearMonth)
    : (r: seq<CategoryBreakdown>)
    ensures IsBreakdownOf(InMonth(expenses, userId, current), r)
  {
    var stats := GetCategoryStats(expenses, userId, AtStartOfMonth(current), AtEndOfMonth(current));
    BreakdownOfStats(InMonth(expenses, userId, current), stats);
    WithShares(stats, SumTotals(stats))
  }

  /** Reading the breakdown back gives the aggregation entries it was built from. */
  lemma {:induction false} AsStatsWithShares(stats: seq<CategoryStats>, total: int)
    ensures AsStats(WithShares(stats, total)) == stats
  {
    if stats != [] {
      AsStatsWithShares(stats[1..], total);
      assert WithShares(stats, total)[1..] == WithShares(stats[1..], total);
    }
  }

  function SumAmounts(r: seq<CategoryBreakdown>): int {
    if r == [] then 0 else r[0].amount + SumAmounts(r[1..])
  }

  function SumPercentages(r: seq<CategoryBreakdown>): int {
    if r == [] then 0 else r[0].percentage + SumPercentages(r[1..])
  }

  /** The HALF_UP bounds of one entry with a non-negative amount, multiplied out. */
  lemma EntryBounds(a: int, p: int, total: int)
    requires total > 0 && a >= 0 && p >= 0
    requires 2 * Abs(a * 10000) - total < 2 * Abs(p) * total <= 2 * Abs(a * 10000) + total
    ensures 20000 * a - total < 2 * (p * total) <= 20000 * a + total
  {
    assert Abs(a * 10000) == a * 10000 && Abs(p) == p;
    assert 2 * Abs(p) * total == 2 * (p * total);
  }

  /** Summing the per-entry HALF_UP bounds: each entry is off by at most half a hundredth. */
  lemma {:induction false} PercentagesSumBounds(r: seq<CategoryBreakdown>, total: int)
    requires total > 0
    requires forall i :: 0 <= i < |r| ==>
      20000 * r[i].amount - total < 2 * (r[i].percentage * total) <= 20000 * r[i].amount + total
    ensures 20000 * SumAmounts(r) - |r| * total <= 2 * (SumPercentages(r) * total)
    ensures 2 * (SumPercentages(r) * total) <= 20000 * SumAmounts(r) + |r| * total
  {
    if r != [] {
      var rest := r[1..];
      PercentagesSumBounds(rest, total);
      var a, p := r[0].amount, r[0].percentage;
      var sp := SumPercentages(rest);
      assert SumPercentages(r) * total == p * total + sp * total by {
        assert SumPercentages(r) == p + sp;
      }
      assert |r| * total == total + |rest| * total;
    }
  }

  lemma {:induction false} SumInNonNegative(es: seq<Expense>, c: string)
    requires forall e :: e in es ==> e.amount >= 0
    ensures SumIn(es, c, Amount) >= 0
  {
    if es != [] {
      assert es[0] in es;
      SumInNonNegative(es[1..], c);
    }
  }

  lemma {:induction false} SumAmountsIsSumTotals(r: seq<CategoryBreakdown>)
    ensures SumAmounts(r) == SumTotals(AsStats(r))
  {
    if r != [] {
      assert AsStats(r)[1..] == AsStats(r[1..]);
      SumAmountsIsSumTotals(r[1..]);
    }
  }

  /** Dividing the summed bounds by the positive total. */
  lemma HundredWithinHalfPerEntry(total: int, n: int, p: int, amounts: int)
    requires total > 0 && amounts == total
    requires 20000 * amounts - n * total <= 2 * (p * total) <= 20000 * amounts + n * total
    ensures 20000 - n <= 2 * p <= 20000 + n
  {
    assert (20000 - n) * total == 20000 * amounts - n * total;
    assert (20000 + n) * total == 20000 * amounts + n * total;
    assert (2 * p) * total == 2 * (p * total);
    CancelPositive(20000 - n, 2 * p, total);
    CancelPositive(2 * p, 20000 + n, total);
  }

  /** With non-negative expense amounts every aggregation total is non-negative. */
  lemma EntryNonNegative(matched: seq<Expense>, stats: seq<CategoryStats>, i: int)
    requires forall e :: e in matched ==> e.amount >= 0
    requires IsCategoryStatsOf(matched, stats) && 0 <= i < |stats|
    ensures stats[i].total >= 0
  {
    var entry := stats[i];
    assert entry == StatOf(matched, entry.category);
    SumInNonNegative(matched, entry.category);
  }

  /** With non-negative expense amounts every breakdown entry has a non-negative amount and percentage. */
  lemma BreakdownEntriesNonNegative(expenses: seq<Expense>, userId: string, current: YearMonth)
    requires forall e :: e in expenses ==> e.amount >= 0
    requires Total(InMonth(expenses, userId, current)) > 0
    ensures var r := GetSpendingBreakdown(expenses, userId, current);
      forall i :: 0 <= i < |r| ==> r[i].amount >= 0 && r[i].percentage >= 0
  {
    var matched := InMonth(expenses, userId, current);
    var stats := GetCategoryStats(expenses, userId, AtStartOfMonth(current), AtEndOfMonth(current));
    var r := GetSpendingBreakdown(expenses, userId, current);
    CategoryStatsTotals(matched, stats);
    assert r == WithShares(stats, Total(matched));
    forall i | 0 <= i < |r|
      ensures r[i].amount >= 0 && r[i].percentage >= 0
    {
      EntryNonNegative(matched, stats, i);
    }
  }

  /**
   * With non-negative amounts and some spending this month, the breakdown's
   * percentages add up to 100.00 within half a hundredth per category.
   */
  lemma BreakdownPercentagesSumToHundred(expenses: seq<Expense>, userId: string, current: YearMonth)
    requires forall e :: e in expenses ==> e.amount >= 0
    requires Total(InMonth(expenses, userId, current)) > 0
    ensures var r := GetSpendingBreakdown(expenses, userId, current);
      20000 - |r| <= 2 * SumPercentages(r) <= 20000 + |r|
  {
    var matched := InMonth(expenses, userId, current);
    var total := Total(matched);
    var r := GetSpendingBreakdown(expenses, userId, current);
    BreakdownEntriesNonNegative(expenses, userId, current);
    forall i | 0 <= i < |r|
      ensures 20000 * r[i].amount - total < 2 * (r[i].percentage * total) <= 20000 * r[i].amount + total
    {
      EntryBounds(r[i].amount, r[i].percentage, total);
    }
    PercentagesSumBounds(r, total);
    CategoryStatsTotals(matched, AsStats(r));
    SumAmountsIsSumTotals(r);
    HundredWithinHalfPerEntry(total, |r|, SumPercentages(r), SumAmounts(r));
  }

  /** MonthlyTrendDto. */
  datatype MonthlyTrend = MonthlyTrend(month: MonthNumber, year: int, monthName: string, amount: int)

  /** The trend entry of one month: its number, year, short English name and the caller's spending in it. */
  function TrendOf(expenses: seq<Expense>, userId: string, ym: YearMonth): (t: MonthlyTrend)
    ensures t.month == ym.month && t.year == ym.year
    ensures t.monthName == GetShortMonthName(ym.month).value == GetMonthName(ym.month).value[..3]
    ensures t.amount == Total(InMonth(expenses, userId, ym))
  {
    MonthNamesAgree(ym.month, ym.month);
    MonthlyTrend(ym.month, ym.year, ShortMonthNames[ym.month - 1], Total(InMonth(expenses, userId, ym)))
  }

  /** One trend entry: the month's number, year and short English name, and the caller's spending in it. */
  method MonthTrend(expenses: seq<Expense>, userId: string, target: YearMonth) returns (entry: MonthlyTrend)
    ensures entry == TrendOf(expenses, userId, target)
    ensures entry.amount == Total(InMonth(expenses, userId, target))
  {
    var amount := Total(FindByUserIdAndDateBetween(expenses, userId, AtStartOfMonth(target), AtEndOfMonth(target)));
    entry := MonthlyTrend(target.month, target.year, ShortMonthNames[target.month - 1], amount);
  }

  /** Entry k of a trend of n months ending with the current month is the month n - 1 - k months back. */
  predicate IsTrendFrom(trends: seq<MonthlyTrend>, expenses: seq<Expense>, userId: string, current: YearMonth, n: int) {
    forall k :: 0 <= k < |trends| ==> trends[k] == TrendOf(expenses, userId, MinusMonths(current, n - 1 - k))
  }

  /** Appending the entry for the next month keeps a trend prefix a trend prefix. */
  lemma TrendAppend(trends: seq<MonthlyTrend>, expenses: seq<Expense>, userId: string, current: YearMonth, n: int,
                    i: int, entry: MonthlyTrend)
    requires IsTrendFrom(trends, expenses, userId, current, n)
    requires |trends| == n - 1 - i
    requires entry == TrendOf(expenses, userId, MinusMonths(current, i))
    ensures IsTrendFrom(trends + [entry], expenses, userId, current, n)
  {
    var extended := trends + [entry];
    assert forall k :: 0 <= k < |trends| ==> extended[k] == trends[k];
    assert extended[|trends|] == entry && n - 1 - |trends| == i;
  }

  /** Java `int` arithmetic: the one value in [-2^31, 2^31) that agrees with x modulo 2^32. */
  function WrapInt32(x: int): (r: int)
    ensures -0x8000_0000 <= r < 0x8000_0000
    ensures -0x8000_0000 <= x < 0x8000_0000 ==> r == x
    ensures -0x1_8000_0000 <= x < -0x8000_0000 ==> r == x + 0x1_0000_0000
    ensures 0x8000_0000 <= x < 0x1_8000_0000 ==> r == x - 0x1_0000_0000
  {
    (x + 0x8000_0000) % 0x1_0000_0000 - 0x8000_0000
  }

  /** The wrapped value differs from the exact one by a whole number of 2^32 turns. */
  lemma WrapInt32Congruent(x: int)
    ensures (x - WrapInt32(x)) % 0x1_0000_0000 == 0
  {
    var q := (x + 0x8000_0000) / 0x1_0000_0000;
    assert x - WrapInt32(x) == 0x1_0000_0000 * q;
  }

  /**
   * A countdown loop from `WrapInt32(n - 1)` to 0 makes max(n, 0) steps for a
   * Java int n, except for Integer.MIN_VALUE, where it makes 2^31.
   */
  lemma CountdownFromWrapped(n: int)
    requires -0x8000_0000 <= n < 0x8000_0000
    ensures var steps := WrapInt32(n - 1) + 1;
      (if steps > 0 then steps else 0) == if n > 0 then n else if n == -0x8000_0000 then 0x8000_0000 else 0
  {
  }

  /**
   * The loop of getSpendingTrends, `for (int i = n - 1; i >= 0; i--)`: the
   * trend of the month i months back for each i, oldest first.
   */
  method CollectTrends(expenses: seq<Expense>, userId: string, current: YearMonth, n: int)
    returns (trends: seq<MonthlyTrend>)
    ensures |trends| == if n > 0 then n else 0
    ensures IsTrendFrom(trends, expenses, userId, current, |trends|)
  {
    trends := [];
    var i := n - 1;
    while i >= 0
      invariant i < n && (i >= -1 || i == n - 1)
      invariant |trends| == n - 1 - i
      invariant IsTrendFrom(trends, expenses, userId, current, n)
      decreases i
    {
      var entry := MonthTrend(expenses, userId, MinusMonths(current, i));
      TrendAppend(trends, expenses, userId, current, n, i, entry);
      trends := trends + [entry];
      i := i - 1;
    }
  }

  /**
   * getSpendingTrends: one entry for each of the last `months` months (6 when
   * not given), oldest first and ending with the current month; none when
   * the count is not positive. `months` is a Java Integer, and the loop starts
   * from the int `numMonths - 1`: for Integer.MIN_VALUE that wraps round to
   * Integer.MAX_VALUE, and the loop covers 2^31 months.
   */
  method GetSpendingTrends(expenses: seq<Expense>, userId: string, months: Option<int>, current: YearMonth)
    returns (trends: seq<MonthlyTrend>)
    requires months.Some? ==> -0x8000_0000 <= months.value < 0x8000_0000
    ensures var n := if months.Some? then months.value else 6;
      |trends| == if n > 0 then n else if n == -0x8000_0000 then 0x8000_0000 else 0
    ensures IsTrendFrom(trends, expenses, userId, current, |trends|)
  {
    var numMonths := if months.Some? then months.value else 6;
    trends := CollectTrends(expenses, userId, current, WrapInt32(numMonths - 1) + 1);
    CountdownFromWrapped(numMonths);
  }

  /**
   * The trend GetSpendingTrends returns ends with the current month and steps
   * forward one calendar month per entry, across year boundaries.
   */
  lemma TrendMonthsConsecutive(expenses: seq<Expense>, userId: string, current: YearMonth, trends: seq<MonthlyTrend>)
    requires IsTrendFrom(trends, expenses, userId, current, |trends|)
    ensures |trends| > 0 ==>
      trends[|trends| - 1].month == current.month && trends[|trends| - 1].year == current.year
    ensures forall k :: 0 <= k < |trends| - 1 ==>
      PreviousMonth(YearMonth(trends[k + 1].year, trends[k + 1].month)) == YearMonth(trends[k].year, trends[k].month)
  {
    MinusMonthsStep(current, 0);
    forall k | 0 <= k < |trends| - 1
      ensures PreviousMonth(YearMonth(trends[k + 1].year, trends[k + 1].month))
           == YearMonth(trends[k].year, trends[k].month)
    {
      var n := |trends| - 2 - k;
      MinusMonthsStep(current, n);
      assert YearMonth(trends[k + 1].year, trends[k + 1].month) == MinusMonths(current, n);
      assert YearMonth(trends[k].year, trends[k].month) == MinusMonths(current, n + 1);
    }
  }
}

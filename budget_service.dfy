/**
 * BudgetServiceImpl: one monthly spending limit per (user, month, year), and
 * the view of it enriched with what was spent in that calendar month.
 */
module BudgetService {
  import opened Errors
  import opened Money
  import opened Calendar
  import opened ExpenseRepository

  /** The Budget document. */
  datatype Budget = Budget(id: string, userId: string, monthlyLimit: int, month: int, year: int)

  /** BudgetDto as the service returns it: the budget plus spent, remaining and percentUsed. */
  datatype BudgetView = BudgetView(budget: Budget, spent: int, remaining: int, percentUsed: int)

  predicate HasKey(b: Budget, userId: string, month: int, year: int) {
    b.userId == userId && b.month == month && b.year == year
  }

  /**
   * The collection's invariant: unique ids, the unique compound index on
   * (userId, month, year), and month numbers LocalDate.of accepts (every
   * budget is written through a validated BudgetDto).
   */
  predicate ValidBudgets(budgets: seq<Budget>) {
    && (forall i, j :: 0 <= i < j < |budgets| ==> budgets[i].id != budgets[j].id)
    && (forall i, j :: 0 <= i < j < |budgets| ==>
          !HasKey(budgets[j], budgets[i].userId, budgets[i].month, budgets[i].year))
    && (forall b :: b in budgets ==> 1 <= b.month <= 12)
  }

  /** findByUserIdAndMonthAndYear, as the position of the matching document. */
  function FindByKey(budgets: seq<Budget>, userId: string, month: int, year: int): (k: Option<nat>)
    ensures k.Some? ==> k.value < |budgets| && HasKey(budgets[k.value], userId, month, year)
    ensures k.None? <==> forall b :: b in budgets ==> !HasKey(b, userId, month, year)
  {
    if budgets == [] then None
    else if HasKey(budgets[|budgets| - 1], userId, month, year) then Some(|budgets| - 1)
    else FindByKey(budgets[..|budgets| - 1], userId, month, year)
  }

  /** Under the unique index there is at most one document per key. */
  lemma KeyIsUnique(budgets: seq<Budget>, userId: string, month: int, year: int, i: int, j: int)
    requires ValidBudgets(budgets)
    requires 0 <= i < |budgets| && 0 <= j < |budgets|
    requires HasKey(budgets[i], userId, month, year) && HasKey(budgets[j], userId, month, year)
    ensures i == j
  {
  }

  /** Under the unique index, the lookup finds the one document with the key. */
  lemma FindByKeyFindsUnique(budgets: seq<Budget>, userId: string, month: int, year: int, idx: nat)
    requires ValidBudgets(budgets) && idx < |budgets| && HasKey(budgets[idx], userId, month, year)
    ensures FindByKey(budgets, userId, month, year) == Some(idx)
  {
    var k := FindByKey(budgets, userId, month, year).value;
    KeyIsUnique(budgets, userId, month, year, k, idx);
  }

  /** Changing a document's limit keeps ids, keys and months, hence the invariant. */
  lemma SetLimitKeepsValid(budgets: seq<Budget>, k: nat, monthlyLimit: int)
    requires ValidBudgets(budgets) && k < |budgets|
    ensures ValidBudgets(budgets[k := budgets[k].(monthlyLimit := monthlyLimit)])
  {
    var after := budgets[k := budgets[k].(monthlyLimit := monthlyLimit)];
    forall i | 0 <= i < |after|
      ensures after[i].id == budgets[i].id && after[i].userId == budgets[i].userId
      ensures after[i].month == budgets[i].month && after[i].year == budgets[i].year
    {
    }
  }

  /** Adding a document with a fresh id and a fresh key keeps the invariant. */
  lemma AppendKeepsValid(budgets: seq<Budget>, b: Budget)
    requires ValidBudgets(budgets) && 1 <= b.month <= 12
    requires forall x :: x in budgets ==> x.id != b.id && !HasKey(x, b.userId, b.month, b.year)
    ensures ValidBudgets(budgets + [b])
  {
    var after := budgets + [b];
    forall i | 0 <= i < |budgets|
      ensures after[i] == budgets[i] && after[i] in budgets
    {
    }
  }

  /**
   * enrichBudgetWithSpending: spent is the sum of the owner's expenses from the
   * first to the last day of the budget's month, remaining is the limit minus
   * spent (negative when overspent), and percentUsed is spent * 100 / limit at
   * scale 2, HALF_UP, or 0 when the limit is not positive.
   */
  function Enrich(b: Budget, expenses: seq<Expense>): (v: BudgetView)
    requires 1 <= b.month <= 12
    ensures v.budget == b
    ensures v.spent == Total(InMonth(expenses, b.userId, YearMonth(b.year, b.month)))
    ensures v.remaining + v.spent == b.monthlyLimit
    ensures b.monthlyLimit <= 0 ==> v.percentUsed == 0
    ensures b.monthlyLimit > 0 ==>
      2 * Abs(v.spent * 10000) - b.monthlyLimit < 2 * Abs(v.percentUsed) * b.monthlyLimit
                                               <= 2 * Abs(v.spent * 10000) + b.monthlyLimit
    ensures b.monthlyLimit > 0 && v.spent >= 0 ==> v.percentUsed >= 0
    ensures b.monthlyLimit > 0 && v.spent <= 0 ==> v.percentUsed <= 0
  {
    var ym := YearMonth(b.year, b.month);
    var spent := Total(FindByUserIdAndDateBetween(expenses, b.userId, AtStartOfMonth(ym), AtEndOfMonth(ym)));
    var percentUsed := if b.monthlyLimit > 0 then Percent(spent, b.monthlyLimit) else 0;
    BudgetView(b, spent, b.monthlyLimit - spent, percentUsed)
  }

  /** When the expense dates are valid, spent counts exactly the owner's expenses dated in the budget's month. */
  lemma SpentIsCalendarMonth(b: Budget, expenses: seq<Expense>)
    requires 1 <= b.month <= 12 && ValidDates(expenses)
    ensures Enrich(b, expenses).spent
         == Total(InMonth(expenses, b.userId, YearMonth(b.year, b.month)))
    ensures forall e :: e in InMonth(expenses, b.userId, YearMonth(b.year, b.month)) <==>
      e in expenses && e.userId == b.userId && e.date.year == b.year && e.date.month == b.month
  {
    InMonthIsCalendarMonth(expenses, b.userId, YearMonth(b.year, b.month));
  }

  /** Spending the whole limit or more reports at least 100.00 percent; the figure is not capped. */
  lemma PercentUsedReachesHundred(b: Budget, expenses: seq<Expense>)
    requires 1 <= b.month <= 12 && b.monthlyLimit > 0
    requires Enrich(b, expenses).spent >= b.monthlyLimit
    ensures Enrich(b, expenses).percentUsed >= 10000
    ensures Enrich(b, expenses).remaining <= 0
  {
    var v := Enrich(b, expenses);
    DivHalfUpExact(10000, b.monthlyLimit);
    DivHalfUpMonotone(10000 * b.monthlyLimit, v.spent * 10000, b.monthlyLimit);
  }

  /** Spending less than the limit leaves a positive remainder and at most 100.00 percent used. */
  lemma PercentUsedBelowLimit(b: Budget, expenses: seq<Expense>)
    requires 1 <= b.month <= 12 && b.monthlyLimit > 0
    requires 0 <= Enrich(b, expenses).spent < b.monthlyLimit
    ensures 0 <= Enrich(b, expenses).percentUsed <= 10000
    ensures Enrich(b, expenses).remaining > 0
  {
    var v := Enrich(b, expenses);
    DivHalfUpExact(10000, b.monthlyLimit);
    DivHalfUpMonotone(v.spent * 10000, 10000 * b.monthlyLimit, b.monthlyLimit);
  }

  /** A 500.00 limit with 200.50 spent leaves 299.50 and reports 40.10 percent used. */
  lemma BudgetExample(b: Budget, expenses: seq<Expense>)
    requires 1 <= b.month <= 12 && b.monthlyLimit == 50000
    requires Total(InMonth(expenses, b.userId, YearMonth(b.year, b.month))) == 20050
    ensures Enrich(b, expenses).remaining == 29950
    ensures Enrich(b, expenses).percentUsed == 4010
  {
    DivHalfUpExact(4010, 50000);
  }

  /** HALF_UP on a tie: 0.01 spent of a 200.00 limit is 0.005 percent, reported as 0.01. */
  lemma BudgetTieRoundsUp(b: Budget, expenses: seq<Expense>)
    requires 1 <= b.month <= 12 && b.monthlyLimit == 20000
    requires Total(InMonth(expenses, b.userId, YearMonth(b.year, b.month))) == 1
    ensures Enrich(b, expenses).percentUsed == 1
  {
    DivHalfUpUnique(10000, 20000, 1);
  }

  /** The budgets collection, as the service sees it through BudgetRepository. */
  class BudgetStore {
    var budgets: seq<Budget>

    ghost predicate Valid()
      reads this
    {
      ValidBudgets(budgets)
    }

    constructor ()
      ensures Valid() && budgets == []
    {
      budgets := [];
    }

    /**
     * getBudgetByMonthAndYear: the caller's budget for the month, enriched, or
     * NotFound when there is none (also for a month outside 1..12, which no
     * stored budget has).
     */
    function GetBudgetByMonthAndYear(userId: string, month: int, year: int, expenses: seq<Expense>)
      : (r: Result<BudgetView>)
      reads this
      requires Valid()
      ensures r.Err? <==> forall b :: b in budgets ==> !HasKey(b, userId, month, year)
      ensures r.Err? ==> r.error == NotFound
      ensures r.Ok? ==> r.value.budget in budgets && HasKey(r.value.budget, userId, month, year)
                        && r.value == Enrich(r.value.budget, expenses)
    {
      match FindByKey(budgets, userId, month, year)
      case None => Err(NotFound)
      case Some(k) => Ok(Enrich(budgets[k], expenses))
    }

    /** getCurrentBudget: the lookup above for the current month. */
    function GetCurrentBudget(userId: string, current: YearMonth, expenses: seq<Expense>): (r: Result<BudgetView>)
      reads this
      requires Valid()
      ensures r.Err? <==> forall b :: b in budgets ==> !HasKey(b, userId, current.month, current.year)
      ensures r.Ok? ==> HasKey(r.value.budget, userId, current.month, current.year)
                        && r.value.spent == Total(InMonth(expenses, userId, current))
      ensures r == GetBudgetByMonthAndYear(userId, current.month, current.year, expenses)
    {
      GetBudgetByMonthAndYear(userId, current.month, current.year, expenses)
    }

    /**
     * createOrUpdateBudget: the caller's budget for the DTO's month gets the
     * new limit, keeping its id; when there is none a new document with a
     * fresh id is added. The arguments are a validated BudgetDto.
     */
    method CreateOrUpdateBudget(userId: string, month: int, year: int, monthlyLimit: int, newId: string,
                                expenses: seq<Expense>)
      returns (v: BudgetView)
      requires Valid()
      requires 1 <= month <= 12 && year >= 2020 && monthlyLimit >= 1
      requires forall b :: b in budgets ==> b.id != newId
      modifies this
      ensures Valid()
      ensures old(FindByKey(budgets, userId, month, year)).Some? ==>
        var k := old(FindByKey(budgets, userId, month, year)).value;
        budgets == old(budgets)[k := old(budgets)[k].(monthlyLimit := monthlyLimit)]
      ensures old(FindByKey(budgets, userId, month, year)).None? ==>
        budgets == old(budgets) + [Budget(newId, userId, monthlyLimit, month, year)]
      ensures HasKey(v.budget, userId, month, year) && v.budget.monthlyLimit == monthlyLimit
      ensures GetBudgetByMonthAndYear(userId, month, year, expenses) == Ok(v)
    {
      var found := FindByKey(budgets, userId, month, year);
      var budget: Budget;
      var idx: nat;
      if found.Some? {
        idx := found.value;
        budget := budgets[idx].(monthlyLimit := monthlyLimit);
        SetLimitKeepsValid(budgets, idx, monthlyLimit);
        budgets := budgets[idx := budget];
      } else {
        idx := |budgets|;
        budget := Budget(newId, userId, monthlyLimit, month, year);
        AppendKeepsValid(budgets, budget);
        budgets := budgets + [budget];
      }
      FindByKeyFindsUnique(budgets, userId, month, year, idx);
      v := Enrich(budget, expenses);
    }
  }
}

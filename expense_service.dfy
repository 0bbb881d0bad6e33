/**
 * ExpenseServiceImpl: owner-scoped access to single expenses, the monthly
 * statistics and the category list merged with the defaults.
 */
module ExpenseService {
  import opened Errors
  import opened Money
  import opened Calendar
  import opened ExpenseRepository

  /** DEFAULT_CATEGORIES, in declaration order. */
  const DefaultCategories: seq<string> :=
    ["Food & Dining", "Transportation", "Shopping", "Entertainment",
     "Bills & Utilities", "Healthcare", "Education", "Travel", "Other"]

  /** The store's primary key: no two records share an id. */
  predicate UniqueIds(store: seq<Expense>) {
    forall i, j :: 0 <= i < j < |store| ==> store[i].id != store[j].id
  }

  lemma SameIdSameRecord(store: seq<Expense>, e1: Expense, e2: Expense)
    requires UniqueIds(store) && e1 in store && e2 in store && e1.id == e2.id
    ensures e1 == e2
  {
    var i :| 0 <= i < |store| && store[i] == e1;
    var j :| 0 <= j < |store| && store[j] == e2;
    assert !(i < j) && !(j < i);
  }

  /** findById: the record with the given id, if there is one. */
  function FindById(store: seq<Expense>, id: string): (r: Option<Expense>)
    ensures r.Some? ==> r.value in store && r.value.id == id
    ensures r.None? ==> forall e :: e in store ==> e.id != id
  {
    if store == [] then None
    else if store[0].id == id then Some(store[0])
    else FindById(store[1..], id)
  }

  /**
   * The lookup getExpenseById, updateExpense and deleteExpense share:
   * `findById(id).filter(owned by caller).orElseThrow(NotFound)`. A record of
   * another user is reported exactly as a missing one.
   */
  function GetOwnedExpense(store: seq<Expense>, id: string, userId: string): (r: Result<Expense>)
    requires UniqueIds(store)
    ensures r.Ok? <==> exists e :: e in store && e.id == id && e.userId == userId
    ensures r.Ok? ==> r.value in store && r.value.id == id && r.value.userId == userId
    ensures r.Err? ==> r.error == NotFound
  {
    var found := FindById(store, id);
    if found.Some? && found.value.userId == userId then Ok(found.value)
    else
      assert forall e :: e in store && e.id == id ==> e == found.value by {
        forall e | e in store && e.id == id
          ensures e == found.value
        {
          SameIdSameRecord(store, e, found.value);
        }
      }
      Err(NotFound)
  }

  /** The store without the record of the given id. */
  function WithoutId(store: seq<Expense>, id: string): (r: seq<Expense>)
    ensures forall e :: e in r <==> e in store && e.id != id
  {
    if store == [] then []
    else (if store[0].id == id then [] else [store[0]]) + WithoutId(store[1..], id)
  }

  /** The expense collection, as the services see it through the repository. */
  class ExpenseStore {
    var expenses: seq<Expense>

    ghost predicate Valid()
      reads this
    {
      UniqueIds(expenses)
    }

    constructor ()
      ensures Valid() && expenses == []
    {
      expenses := [];
    }

    /** createExpense: the record is stored under the caller's id; newId is the id the store assigns. */
    method CreateExpense(userId: string, newId: string, amount: int, category: string, date: Date)
      returns (e: Expense)
      requires Valid()
      requires forall x :: x in expenses ==> x.id != newId
      modifies this
      ensures Valid()
      ensures e == Expense(newId, userId, amount, category, date)
      ensures expenses == old(expenses) + [e]
    {
      e := Expense(newId, userId, amount, category, date);
      expenses := expenses + [e];
    }

    /** deleteExpense: NotFound, and nothing changes, unless the caller owns the record. */
    method DeleteExpense(id: string, userId: string) returns (r: Outcome)
      requires Valid()
      modifies this
      ensures Valid()
      ensures r.Done? <==> GetOwnedExpense(old(expenses), id, userId).Ok?
      ensures r.Failed? ==> r.error == NotFound && expenses == old(expenses)
      ensures r.Done? ==> expenses == WithoutId(old(expenses), id)
      ensures forall e :: e in expenses <==> e in old(expenses) && (r.Done? ==> e.id != id)
    {
      var found := GetOwnedExpense(expenses, id, userId);
      if found.Err? {
        return Failed(NotFound);
      }
      WithoutIdKeepsUnique(expenses, id);
      expenses := WithoutId(expenses, id);
      r := Done;
    }
  }

  lemma {:induction false} WithoutIdKeepsUnique(store: seq<Expense>, id: string)
    requires UniqueIds(store)
    ensures UniqueIds(WithoutId(store, id))
  {
    if store != [] {
      WithoutIdKeepsUnique(store[1..], id);
      var rest := WithoutId(store[1..], id);
      assert forall e :: e in rest ==> e.id != store[0].id by {
        forall e | e in rest
          ensures e.id != store[0].id
        {
          var k :| 0 <= k < |store[1..]| && store[1..][k] == e;
          assert store[k + 1] == e;
        }
      }
    }
  }

  /** The month/year getMonthlyStats works on: both replaced by the current ones if either is missing. */
  function ResolveMonth(month: Option<int>, year: Option<int>, current: YearMonth): (r: (int, int))
    ensures month.None? || year.None? ==> r == (current.month, current.year)
    ensures month.Some? && year.Some? ==> r == (month.value, year.value)
  {
    if month.None? || year.None? then (current.month, current.year) else (month.value, year.value)
  }

  datatype MonthlyExpenseStats = MonthlyExpenseStats(
    month: int, year: int,
    totalAmount: int, totalTransactions: int, averageAmount: int,
    topCategory: Option<string>, topCategoryAmount: int)

  /**
   * getMonthlyStats: total, count and HALF_UP average of the owner's expenses
   * in the month, and the first category of the aggregation.
   */
  function GetMonthlyStats(store: seq<Expense>, userId: string, month: Option<int>, year: Option<int>,
                           current: YearMonth): (r: Result<MonthlyExpenseStats>)
    ensures r.Ok? <==> 1 <= ResolveMonth(month, year, current).0 <= 12
    ensures r.Err? ==> r.error == InvalidDate
    ensures r.Ok? ==> (r.value.month, r.value.year) == ResolveMonth(month, year, current)
    ensures r.Ok? ==>
      var matched := InMonth(store, userId, YearMonth(r.value.year, r.value.month));
      && r.value.totalAmount == Total(matched)
      && r.value.totalTransactions == |matched|
      && (|matched| == 0 ==> r.value.averageAmount == 0)
      && (|matched| > 0 ==>
            2 * Abs(r.value.totalAmount) - |matched| < 2 * Abs(r.value.averageAmount) * |matched|
                                                    <= 2 * Abs(r.value.totalAmount) + |matched|)
      && (|matched| > 0 && r.value.totalAmount >= 0 ==> r.value.averageAmount >= 0)
      && (|matched| > 0 && r.value.totalAmount <= 0 ==> r.value.averageAmount <= 0)
      && (r.value.topCategory.None? <==> |matched| == 0)
      && (r.value.topCategory.None? ==> r.value.topCategoryAmount == 0)
      && (r.value.topCategory.Some? ==>
            && r.value.topCategoryAmount == SumIn(matched, r.value.topCategory.value, Amount)
            && (exists e :: e in matched && e.category == r.value.topCategory.value)
            && forall e :: e in matched ==> SumIn(matched, e.category, Amount) <= r.value.topCategoryAmount)
  {
    var (m, y) := ResolveMonth(month, year, current);
    if !(1 <= m <= 12) then Err(InvalidDate)
    else
      var ym := YearMonth(y, m);
      var matched := InMonth(store, userId, ym);
      var total := Total(matched);
      var count := |matched|;
      var average := if count > 0 then DivHalfUp(total, count) else 0;
      var stats := GetCategoryStats(store, userId, AtStartOfMonth(ym), AtEndOfMonth(ym));
      CategoryStatsEmpty(matched, stats);
      if stats == [] then
        Ok(MonthlyExpenseStats(m, y, total, count, average, None, 0))
      else
        CategoryStatsTop(matched, stats);
        var top := stats[0];
        CountPositiveIffPresent(matched, top.category);
        Ok(MonthlyExpenseStats(m, y, total, count, average, Some(top.category), top.total))
  }

  /** A month without expenses reports zero total, zero transactions, zero average and no top category. */
  lemma MonthlyStatsOfEmptyMonth(store: seq<Expense>, userId: string, current: YearMonth)
    requires InMonth(store, userId, current) == []
    ensures GetMonthlyStats(store, userId, None, None, current)
         == Ok(MonthlyExpenseStats(current.month, current.year, 0, 0, 0, None, 0))
  {
  }

  /** The defaults of ds missing from user, in the order of ds. */
  function MissingDefaults(user: seq<string>, ds: seq<string>): (r: seq<string>)
    ensures forall x :: x in r <==> x in ds && x !in user
  {
    if ds == [] then []
    else
      var init, last := ds[..|ds| - 1], ds[|ds| - 1];
      assert ds == init + [last];
      MissingDefaults(user, init) + (if last in user then [] else [last])
  }

  lemma {:induction false} MissingDefaultsDistinct(user: seq<string>, ds: seq<string>)
    requires Distinct(ds)
    ensures Distinct(MissingDefaults(user, ds))
  {
    if ds != [] {
      var init := ds[..|ds| - 1];
      MissingDefaultsDistinct(user, init);
    }
  }

  /** One default more: it is appended exactly when the user lacks it, and it was not appended before. */
  lemma MissingDefaultsStep(user: seq<string>, ds: seq<string>, i: int)
    requires Distinct(ds) && 0 <= i < |ds|
    ensures MissingDefaults(user, ds[..i + 1])
         == MissingDefaults(user, ds[..i]) + (if ds[i] in user then [] else [ds[i]])
    ensures ds[i] !in MissingDefaults(user, ds[..i])
  {
    assert ds[..i + 1][..i] == ds[..i];
    assert forall j :: 0 <= j < i ==> ds[..i][j] != ds[i];
  }

  /** Appending the missing defaults to a list of distinct categories keeps it free of repeats. */
  lemma MergeDistinct(user: seq<string>, ds: seq<string>)
    requires Distinct(user) && Distinct(ds)
    ensures Distinct(user + MissingDefaults(user, ds))
  {
    var missing := MissingDefaults(user, ds);
    MissingDefaultsDistinct(user, ds);
    var r := user + missing;
    forall i, j | 0 <= i < j < |r|
      ensures r[i] != r[j]
    {
      if j >= |user| && i < |user| {
        assert r[j] == missing[j - |user|] && r[j] in missing;
        assert r[i] in user;
      }
    }
  }

  lemma DefaultCategoriesDistinct()
    ensures Distinct(DefaultCategories)
  {
  }

  /**
   * getCategories: the user's distinct categories, then every default
   * category not among them, appended one at a time in DEFAULT_CATEGORIES order.
   */
  method GetCategories(store: seq<Expense>, userId: string) returns (r: seq<string>)
    ensures r == FindDistinctCategoriesByUserId(store, userId)
                 + MissingDefaults(FindDistinctCategoriesByUserId(store, userId), DefaultCategories)
    ensures forall d :: d in DefaultCategories ==> d in r
    ensures forall c :: c in r <==> c in DefaultCategories || exists e :: e in store && e.userId == userId && e.category == c
    ensures Distinct(r)
  {
    var userCategories := FindDistinctCategoriesByUserId(store, userId);
    DefaultCategoriesDistinct();
    r := userCategories;
    for i := 0 to |DefaultCategories|
      invariant r == userCategories + MissingDefaults(userCategories, DefaultCategories[..i])
    {
      var d := DefaultCategories[i];
      MissingDefaultsStep(userCategories, DefaultCategories, i);
      if d !in r {
        r := r + [d];
      }
    }
    assert DefaultCategories[..|DefaultCategories|] == DefaultCategories;
    MergeDistinct(userCategories, DefaultCategories);
  }
}

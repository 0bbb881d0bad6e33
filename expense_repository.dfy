/**
 * ExpenseRepository: the expense records and the queries the services run on
 * them, as pure functions over an in-memory store (a sequence of records).
 */
module ExpenseRepository {
  import opened Errors
  import opened Calendar

  /** An expense record; `amount` in cents. Description, notes, photo and timestamps carry no logic here. */
  datatype Expense = Expense(id: string, userId: string, amount: int, category: string, date: Date)

  /** One group of the category aggregation: `_id`, `total` (cents) and `count`. */
  datatype CategoryStats = CategoryStats(category: string, total: int, count: int)

  /** The filter of a derived or `@Query` finder; `None` leaves a field unconstrained. */
  datatype Criteria = Criteria(userId: string, category: Option<string>, from: Option<Date>, to: Option<Date>)

  predicate Distinct<T(==)>(s: seq<T>) {
    forall i, j :: 0 <= i < j < |s| ==> s[i] != s[j]
  }

  /** Equality on the owner and category, `$gte` on the lower date bound, `$lte` on the upper one. */
  predicate Matches(q: Criteria, e: Expense) {
    && e.userId == q.userId
    && (q.category.Some? ==> e.category == q.category.value)
    && (q.from.Some? ==> DateLe(q.from.value, e.date))
    && (q.to.Some? ==> DateLe(e.date, q.to.value))
  }

  /** The records that match a query, in store order. */
  function Select(store: seq<Expense>, q: Criteria): (r: seq<Expense>)
    ensures |r| <= |store|
    ensures forall e :: e in r <==> e in store && Matches(q, e)
    ensures forall k :: 0 <= k < |r| ==> Matches(q, r[k])
  {
    if store == [] then []
    else (if Matches(q, store[0]) then [store[0]] else []) + Select(store[1..], q)
  }

  /** findByUserId: the owner's records, every one of them. */
  function FindByUserId(store: seq<Expense>, userId: string): (r: seq<Expense>)
    ensures |r| <= |store|
    ensures forall e :: e in r <==> e in store && e.userId == userId
  {
    Select(store, Criteria(userId, None, None, None))
  }

  /** findByUserIdAndCategory: the owner's records in one category. */
  function FindByUserIdAndCategory(store: seq<Expense>, userId: string, category: string): (r: seq<Expense>)
    ensures |r| <= |store|
    ensures forall e :: e in r <==> e in store && e.userId == userId && e.category == category
  {
    Select(store, Criteria(userId, Some(category), None, None))
  }

  /** findByUserIdAndDateBetween, read as the inclusive window [start, end]. */
  function FindByUserIdAndDateBetween(store: seq<Expense>, userId: string, start: Date, end: Date): (r: seq<Expense>)
    ensures |r| <= |store|
    ensures forall e :: e in r <==> e in store && e.userId == userId && DateLe(start, e.date) && DateLe(e.date, end)
  {
    Select(store, Criteria(userId, None, Some(start), Some(end)))
  }

  /** findByUserIdAndCategoryAndDateBetween: `{userId, category, date: {$gte, $lte}}`. */
  function FindByUserIdAndCategoryAndDateBetween(store: seq<Expense>, userId: string, category: string,
                                                 start: Date, end: Date): (r: seq<Expense>)
    ensures forall e :: e in r <==>
      e in store && e.userId == userId && e.category == category && DateLe(start, e.date) && DateLe(e.date, end)
  {
    Select(store, Criteria(userId, Some(category), Some(start), Some(end)))
  }

  /** The owner's expenses dated within one calendar month, first to last day inclusive. */
  function InMonth(store: seq<Expense>, userId: string, ym: YearMonth): seq<Expense> {
    FindByUserIdAndDateBetween(store, userId, AtStartOfMonth(ym), AtEndOfMonth(ym))
  }

  /** Every record has a date LocalDate admits. */
  predicate ValidDates(store: seq<Expense>) {
    forall e :: e in store ==> ValidDate(e.date)
  }

  /** The month window selects exactly the owner's expenses dated in that calendar month. */
  lemma InMonthIsCalendarMonth(store: seq<Expense>, userId: string, ym: YearMonth)
    requires ValidDates(store)
    ensures forall e :: e in InMonth(store, userId, ym) <==>
      e in store && e.userId == userId && e.date.year == ym.year && e.date.month == ym.month
  {
    forall e | e in store
      ensures (DateLe(AtStartOfMonth(ym), e.date) && DateLe(e.date, AtEndOfMonth(ym)))
              <==> (e.date.year == ym.year && e.date.month == ym.month)
    {
      InMonthIff(e.date, ym);
    }
  }

  function Amount(e: Expense): int { e.amount }

  function One(e: Expense): int { 1 }

  /** `stream().map(w).reduce(ZERO, add)`. */
  function SumOf(es: seq<Expense>, w: Expense -> int): int {
    if es == [] then 0 else w(es[0]) + SumOf(es[1..], w)
  }

  /** The amount total of a list of expenses. */
  function Total(es: seq<Expense>): int {
    SumOf(es, Amount)
  }

  lemma {:induction false} SumOfOne(es: seq<Expense>)
    ensures SumOf(es, One) == |es|
  {
    if es != [] {
      SumOfOne(es[1..]);
    }
  }

  /** The `$sum` of w over the records of one category. */
  function SumIn(es: seq<Expense>, c: string, w: Expense -> int): int {
    if es == [] then 0 else (if es[0].category == c then w(es[0]) else 0) + SumIn(es[1..], c, w)
  }

  /** The categories of a list of records, each once, in order of first occurrence. */
  function CategoriesOf(es: seq<Expense>): (cs: seq<string>)
    ensures Distinct(cs)
    ensures forall c :: c in cs <==> exists e :: e in es && e.category == c
  {
    if es == [] then []
    else
      var init, last := es[..|es| - 1], es[|es| - 1];
      assert es == init + [last];
      var cs := CategoriesOf(init);
      if last.category in cs then cs else cs + [last.category]
  }

  /** findDistinctCategoriesByUserId: `$match` on the owner, `$group` by category. */
  function FindDistinctCategoriesByUserId(store: seq<Expense>, userId: string): (r: seq<string>)
    ensures Distinct(r)
    ensures forall c :: c in r <==> exists e :: e in store && e.userId == userId && e.category == c
  {
    CategoriesOf(FindByUserId(store, userId))
  }

  /** The `$group` entry of one category. */
  function StatOf(es: seq<Expense>, c: string): CategoryStats {
    CategoryStats(c, SumIn(es, c, Amount), SumIn(es, c, One))
  }

  /** The position of the first category with the largest total. */
  function ArgMaxTotal(es: seq<Expense>, cats: seq<string>): (k: nat)
    requires |cats| > 0
    ensures k < |cats|
    ensures forall j :: 0 <= j < |cats| ==> SumIn(es, cats[j], Amount) <= SumIn(es, cats[k], Amount)
  {
    if |cats| == 1 then 0
    else
      var k := ArgMaxTotal(es, cats[..|cats| - 1]);
      if SumIn(es, cats[|cats| - 1], Amount) > SumIn(es, cats[k], Amount) then |cats| - 1 else k
  }

  /** r holds the group of each of the distinct categories cats, once, ordered by total descending. */
  predicate IsSortedStatsOf(es: seq<Expense>, cats: seq<string>, r: seq<CategoryStats>) {
    && |r| == |cats|
    && (forall i :: 0 <= i < |r| ==> r[i].category in cats && r[i] == StatOf(es, r[i].category))
    && (forall c :: c in cats ==> exists i :: 0 <= i < |r| && r[i].category == c)
    && (forall i, j :: 0 <= i < j < |r| ==> r[i].category != r[j].category)
    && (forall i, j :: 0 <= i < j < |r| ==> r[i].total >= r[j].total)
  }

  /** Removing position k of a list without repeats removes exactly that element. */
  lemma RemoveAtMembers(cats: seq<string>, k: nat)
    requires Distinct(cats) && k < |cats|
    ensures forall c :: c in cats[..k] + cats[k + 1..] <==> c in cats && c != cats[k]
  {
    var rest := cats[..k] + cats[k + 1..];
    forall c | c in rest
      ensures c in cats && c != cats[k]
    {
      var i :| 0 <= i < |rest| && rest[i] == c;
      if i < k {
        assert rest[i] == cats[i];
      } else {
        assert rest[i] == cats[i + 1];
      }
    }
    forall c | c in cats && c != cats[k]
      ensures c in rest
    {
      var i :| 0 <= i < |cats| && cats[i] == c;
      if i < k {
        assert rest[i] == c;
      } else {
        assert rest[i - 1] == c;
      }
    }
  }

  /** Putting the largest group in front of the sorted groups of the other categories sorts them all. */
  lemma SortedStatsCons(es: seq<Expense>, cats: seq<string>, k: nat, tail: seq<CategoryStats>)
    requires Distinct(cats) && k < |cats|
    requires forall j :: 0 <= j < |cats| ==> SumIn(es, cats[j], Amount) <= SumIn(es, cats[k], Amount)
    requires IsSortedStatsOf(es, cats[..k] + cats[k + 1..], tail)
    ensures IsSortedStatsOf(es, cats, [StatOf(es, cats[k])] + tail)
  {
    var rest := cats[..k] + cats[k + 1..];
    RemoveAtMembers(cats, k);
    var r := [StatOf(es, cats[k])] + tail;
    forall i | 0 < i < |r|
      ensures r[i] == tail[i - 1] && r[i].category in cats && r[i].category != cats[k]
    {
    }
    forall c | c in cats
      ensures exists i :: 0 <= i < |r| && r[i].category == c
    {
      if c == cats[k] {
        assert r[0].category == c;
      } else {
        var i :| 0 <= i < |tail| && tail[i].category == c;
        assert r[i + 1].category == c;
      }
    }
    forall j | 0 < j < |r|
      ensures r[j].total <= r[0].total
    {
      var jj :| 0 <= jj < |cats| && cats[jj] == r[j].category;
    }
  }

  /** The groups of the given categories, ordered by `total` descending (`$sort: {total: -1}`). */
  function SortedStats(es: seq<Expense>, cats: seq<string>): (r: seq<CategoryStats>)
    requires Distinct(cats)
    ensures IsSortedStatsOf(es, cats, r)
    decreases |cats|
  {
    if cats == [] then []
    else
      var k := ArgMaxTotal(es, cats);
      var tail := SortedStats(es, cats[..k] + cats[k + 1..]);
      SortedStatsCons(es, cats, k, tail);
      [StatOf(es, cats[k])] + tail
  }

  /** A category counts at least one record exactly when some record has it. */
  lemma {:induction false} CountPositiveIffPresent(es: seq<Expense>, c: string)
    ensures SumIn(es, c, One) >= 0
    ensures SumIn(es, c, One) > 0 <==> exists e :: e in es && e.category == c
  {
    if es != [] {
      CountPositiveIffPresent(es[1..], c);
      assert forall e :: e in es <==> e == es[0] || e in es[1..];
    }
  }

  /**
   * What the aggregation promises about its output for the matched records:
   * one entry per category present, each with the sum and count of its records
   * (a count of at least one), ordered by total, descending.
   */
  predicate IsCategoryStatsOf(matched: seq<Expense>, stats: seq<CategoryStats>) {
    && (forall i, j :: 0 <= i < j < |stats| ==> stats[i].category != stats[j].category)
    && (forall i :: 0 <= i < |stats| ==> stats[i] == StatOf(matched, stats[i].category))
    && (forall i :: 0 <= i < |stats| ==> stats[i].count > 0)
    && (forall e :: e in matched ==> exists i :: 0 <= i < |stats| && stats[i].category == e.category)
    && (forall i, j :: 0 <= i < j < |stats| ==> stats[i].total >= stats[j].total)
  }

  /**
   * getCategoryStatsByUserIdAndDateBetween: `$match` on owner and date in
   * [start, end], `$group` by category with `$sum` of amount and of 1,
   * `$sort` by total descending. Equal totals keep first-occurrence order.
   */
  function GetCategoryStats(store: seq<Expense>, userId: string, start: Date, end: Date): (r: seq<CategoryStats>)
    ensures IsCategoryStatsOf(FindByUserIdAndDateBetween(store, userId, start, end), r)
  {
    var matched := FindByUserIdAndDateBetween(store, userId, start, end);
    var cats := CategoriesOf(matched);
    var r := SortedStats(matched, cats);
    assert forall e :: e in matched ==> e.category in cats;
    forall i | 0 <= i < |r|
      ensures r[i].count > 0
    {
      CountPositiveIffPresent(matched, r[i].category);
    }
    r
  }

  function SumTotals(stats: seq<CategoryStats>): int {
    if stats == [] then 0 else stats[0].total + SumTotals(stats[1..])
  }

  function SumCounts(stats: seq<CategoryStats>): int {
    if stats == [] then 0 else stats[0].count + SumCounts(stats[1..])
  }

  function StatCategories(stats: seq<CategoryStats>): (cs: seq<string>)
    ensures |cs| == |stats| && forall i :: 0 <= i < |stats| ==> cs[i] == stats[i].category
  {
    if stats == [] then [] else [stats[0].category] + StatCategories(stats[1..])
  }

  function SumOverCategories(es: seq<Expense>, cats: seq<string>, w: Expense -> int): int {
    if cats == [] then 0 else SumIn(es, cats[0], w) + SumOverCategories(es, cats[1..], w)
  }

  /** The part of one record's weight that falls to the given categories. */
  function Share(cats: seq<string>, e: Expense, w: Expense -> int): int {
    if cats == [] then 0 else (if e.category == cats[0] then w(e) else 0) + Share(cats[1..], e, w)
  }

  lemma {:induction false} SumOverNothing(cats: seq<string>, w: Expense -> int)
    ensures SumOverCategories([], cats, w) == 0
  {
    if cats != [] {
      SumOverNothing(cats[1..], w);
    }
  }

  lemma {:induction false} SumOverFirst(es: seq<Expense>, cats: seq<string>, w: Expense -> int)
    requires es != []
    ensures SumOverCategories(es, cats, w) == Share(cats, es[0], w) + SumOverCategories(es[1..], cats, w)
  {
    if cats != [] {
      SumOverFirst(es, cats[1..], w);
    }
  }

  lemma {:induction false} ShareOfAbsent(cats: seq<string>, e: Expense, w: Expense -> int)
    requires e.category !in cats
    ensures Share(cats, e, w) == 0
  {
    if cats != [] {
      ShareOfAbsent(cats[1..], e, w);
    }
  }

  lemma {:induction false} ShareOfPresent(cats: seq<string>, e: Expense, w: Expense -> int)
    requires Distinct(cats) && e.category in cats
    ensures Share(cats, e, w) == w(e)
  {
    if e.category == cats[0] {
      ShareOfAbsent(cats[1..], e, w);
    } else {
      ShareOfPresent(cats[1..], e, w);
    }
  }

  /** Summing per category over distinct categories that cover every record gives the plain sum. */
  lemma {:induction false} PartitionByCategory(es: seq<Expense>, cats: seq<string>, w: Expense -> int)
    requires Distinct(cats)
    requires forall e :: e in es ==> e.category in cats
    ensures SumOverCategories(es, cats, w) == SumOf(es, w)
  {
    if es == [] {
      SumOverNothing(cats, w);
    } else {
      SumOverFirst(es, cats, w);
      ShareOfPresent(cats, es[0], w);
      PartitionByCategory(es[1..], cats, w);
    }
  }

  lemma {:induction false} StatsAsCategorySums(matched: seq<Expense>, stats: seq<CategoryStats>)
    requires forall i :: 0 <= i < |stats| ==> stats[i] == StatOf(matched, stats[i].category)
    ensures SumTotals(stats) == SumOverCategories(matched, StatCategories(stats), Amount)
    ensures SumCounts(stats) == SumOverCategories(matched, StatCategories(stats), One)
  {
    if stats != [] {
      StatsAsCategorySums(matched, stats[1..]);
    }
  }

  /**
   * For any output the aggregation may produce, the totals add up to the sum of
   * the matched amounts and the counts to the number of matched records.
   */
  lemma CategoryStatsTotals(matched: seq<Expense>, stats: seq<CategoryStats>)
    requires IsCategoryStatsOf(matched, stats)
    ensures SumTotals(stats) == Total(matched)
    ensures SumCounts(stats) == |matched|
  {
    var cats := StatCategories(stats);
    assert forall e :: e in matched ==> e.category in cats;
    StatsAsCategorySums(matched, stats);
    PartitionByCategory(matched, cats, Amount);
    PartitionByCategory(matched, cats, One);
    SumOfOne(matched);
  }

  /** The aggregation yields no entry exactly when nothing matched. */
  lemma CategoryStatsEmpty(matched: seq<Expense>, stats: seq<CategoryStats>)
    requires IsCategoryStatsOf(matched, stats)
    ensures |stats| == 0 <==> |matched| == 0
  {
    if |matched| > 0 {
      assert matched[0] in matched;
    }
    if |stats| > 0 {
      CountPositiveIffPresent(matched, stats[0].category);
    }
  }

  /** The first entry has the largest total of any category present. */
  lemma CategoryStatsTop(matched: seq<Expense>, stats: seq<CategoryStats>)
    requires IsCategoryStatsOf(matched, stats)
    requires |stats| > 0
    ensures forall e :: e in matched ==> SumIn(matched, e.category, Amount) <= stats[0].total
  {
    forall e | e in matched
      ensures SumIn(matched, e.category, Amount) <= stats[0].total
    {
      var i :| 0 <= i < |stats| && stats[i].category == e.category;
      var entry := stats[i];
      assert entry == StatOf(matched, entry.category);
      assert i == 0 || stats[0].total >= entry.total;
    }
  }
}

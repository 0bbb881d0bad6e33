# Finance tracker ledger model

A Dafny model of the ledger computation layer of a Spring/MongoDB personal finance backend.
The model covers:

- split bills: participants, payment and settlement, and the per-user summary;
- savings goals: deposits, completion and progress;
- monthly budgets: upsert by (user, month, year), and spending against the limit;
- expense statistics and the category list;
- the dashboard figures, category breakdown and month-by-month trend;
- the calendar helpers the services rely on.

Money is held in whole cents. Percentages are held in hundredths of a percent, so 40.10% is 4010.
The only rounding step in the source is `BigDecimal.divide(x, 2, HALF_UP)`. `Money.DivHalfUp` models it and pins its result down completely.

Modules and files:

| module | file | models |
|---|---|---|
| `Errors` | errors.dfy | NotFound / BadRequest / invalid-date failures and the Result and Option wrappers |
| `Money` | money.dfy | HALF_UP division and percentages at scale 2 |
| `Calendar` | calendar.dfy | the ISO calendar (leap years, month lengths, YearMonth arithmetic) and DateUtils |
| `ExpenseRepository` | expense_repository.dfy | expense records, the finders, and the category aggregation pipeline as a pure specification |
| `ExpenseService` | expense_service.dfy | owner-scoped lookup and delete, monthly statistics, the category list |
| `BudgetService` | budget_service.dfy | the budget store, its lookup and upsert, and spending enrichment |
| `SavingsGoals` | savings.dfy | the SavingsGoal entity, the goal store with create and deposit, the progress summary |
| `SplitBills` | split_bill.dfy | the SplitBill and Participant entities, the bill store with create, add participants and mark paid, the summary |
| `Dashboard` | dashboard.dfy | getStats, getSpendingBreakdown, getSpendingTrends |

The source mutates state in some places. There the model uses a class whose `seq` field the methods reassign under `modifies this`: `ExpenseStore`, `BudgetStore`, `GoalStore` and `SplitBillStore`.
Each such method is tied to a pure function stated separately (`ApplyDeposit`, `MarkPaid`, `Enrich`, `GetBudgetByMonthAndYear`). The properties are proved about those functions.

Some inputs come from outside the code, and the model takes them as parameters:
- The clock (`YearMonth.now()`) is a `current: YearMonth` parameter.
- Ids the store assigns are a `newId` parameter, required to be fresh.
- `UUID.randomUUID()` is a `UuidSource` object that hands out the next string of a given stream.
- The authenticated user is a `userId` parameter.

## Model

| member | source | states |
|---|---|---|
| Money.DivHalfUp | src/main/java/com/financetracker/service/impl/BudgetServiceImpl.java:85 | n / d rounded to the nearest whole number, ties away from zero (HALF_UP). The absolute value lies within half a unit of the exact quotient, and the sign follows the operands. |
| Money.DivHalfUpUnique | src/main/java/com/financetracker/service/impl/BudgetServiceImpl.java:85 | any whole number meeting the HALF_UP bounds and sign rule is the result of DivHalfUp, so the characterisation is complete |
| Money.DivHalfUpExact | src/main/java/com/financetracker/entity/SavingsGoal.java:58 | an exact quotient k*d / d is returned unchanged as k |
| Money.DivHalfUpMonotone | src/main/java/com/financetracker/entity/SavingsGoal.java:58 | with a positive divisor, HALF_UP division never decreases as the dividend grows |
| Money.Percent | src/main/java/com/financetracker/service/impl/DashboardServiceImpl.java:123-124 | part*100/whole at scale 2, HALF_UP, in hundredths of a percent (within half a hundredth of the exact share). Non-negative when part and whole have the same sign, non-positive when their signs differ. |
| Money.HalfUpNat | src/main/java/com/financetracker/service/impl/SavingsGoalServiceImpl.java:136 | (2a + b) / 2b is a / b rounded half-up for naturals |
| Calendar.LengthOfMonth | src/main/java/com/financetracker/util/DateUtils.java:19 | every month has 28 to 31 days |
| Calendar.AtStartOfMonth | src/main/java/com/financetracker/util/DateUtils.java:15 | day 1 is a valid date of the month, and no valid date of the month comes before it |
| Calendar.AtEndOfMonth | src/main/java/com/financetracker/util/DateUtils.java:19 | the last day is a valid date of the month, the next day number is not valid, and no date of the month comes after it |
| Calendar.InMonthIff | src/main/java/com/financetracker/service/impl/ExpenseServiceImpl.java:154-155 | a valid date lies in [first day, last day] of a month exactly when it has that month and year |
| Calendar.GetStartOfMonth | src/main/java/com/financetracker/util/DateUtils.java:14-16 | LocalDate.of(year, month, 1) for months 1..12; a month outside 1..12 is rejected |
| Calendar.GetEndOfMonth | src/main/java/com/financetracker/util/DateUtils.java:18-20 | the last valid day of the given month and year; a month outside 1..12 is rejected |
| Calendar.EndOfMonthDay | src/main/java/com/financetracker/util/DateUtils.java:18-20 | the last day is 31 for months 1,3,5,7,8,10,12, 30 for months 4,6,9,11, and 29 or 28 for February depending on the Gregorian leap-year rule |
| Calendar.IsLeapYear | src/main/java/com/financetracker/util/DateUtils.java:19 | the leap-year rule of YearMonth.atEndOfMonth, as java.time computes it: `(year & 3) == 0` and, with Java's truncating `%`, `year % 100 != 0 || year % 400 == 0` |
| Calendar.StartNotAfterEnd | src/main/java/com/financetracker/util/DateUtils.java:14-20 | start and end of a month share month and year, and start is not after end |
| Calendar.GregorianLeapYears | src/main/java/com/financetracker/util/DateUtils.java:19 | Example: 2000 and 2024 are leap years; 1900, 2100 and 2023 are not |
| Calendar.YearLength | src/main/java/com/financetracker/util/DateUtils.java:19 | the twelve month lengths add up to 365 days, or 366 in a leap year |
| Calendar.GetMonthName | src/main/java/com/financetracker/util/DateUtils.java:30-32 | months 1..12 map to the full English names January..December; other numbers are rejected |
| Calendar.GetShortMonthName | src/main/java/com/financetracker/util/DateUtils.java:34-36 | months 1..12 map to Jan..Dec; other numbers are rejected |
| Calendar.MonthNamesAgree | src/main/java/com/financetracker/util/DateUtils.java:30-36 | each short name is the first three letters of the full name, and distinct months have distinct names |
| Calendar.FromMonthIndex | src/main/java/com/financetracker/service/impl/DashboardServiceImpl.java:147 | the YearMonth with a given month count since year 0 has that count |
| Calendar.FromMonthIndexInverse | src/main/java/com/financetracker/service/impl/DashboardServiceImpl.java:147 | counting months and converting back gives the same YearMonth |
| Calendar.MinusMonths | src/main/java/com/financetracker/service/impl/DashboardServiceImpl.java:147 | YearMonth.minusMonths(n) lies exactly n months before the given month |
| Calendar.MinusMonthsStep | src/main/java/com/financetracker/service/impl/DashboardServiceImpl.java:146-147 | going back 0 months stays put; going back n+1 months is one calendar month before going back n, with year wrap |
| ExpenseRepository.Select | src/main/java/com/financetracker/repository/ExpenseRepository.java:19-26 | a finder returns exactly the stored records that match its criteria, in store order |
| ExpenseRepository.FindByUserId | src/main/java/com/financetracker/repository/ExpenseRepository.java:19 | exactly the owner's records |
| ExpenseRepository.FindByUserIdAndCategory | src/main/java/com/financetracker/repository/ExpenseRepository.java:21 | exactly the owner's records in that category |
| ExpenseRepository.FindByUserIdAndDateBetween | src/main/java/com/financetracker/repository/ExpenseRepository.java:23 | exactly the owner's records dated in [start, end] inclusive |
| ExpenseRepository.FindByUserIdAndCategoryAndDateBetween | src/main/java/com/financetracker/repository/ExpenseRepository.java:25-26 | exactly the owner's records with that category and a date in [start, end] inclusive |
| ExpenseRepository.InMonthIsCalendarMonth | src/main/java/com/financetracker/repository/ExpenseRepository.java:23 | for valid dates, the month window holds exactly the owner's records dated in that calendar month |
| ExpenseRepository.SumOfOne | src/main/java/com/financetracker/repository/ExpenseRepository.java:30 | summing 1 per record counts the records |
| ExpenseRepository.CategoriesOf | src/main/java/com/financetracker/repository/ExpenseRepository.java:37 | each category of the records exactly once |
| ExpenseRepository.FindDistinctCategoriesByUserId | src/main/java/com/financetracker/repository/ExpenseRepository.java:35-39 | every category of the owner's records, each exactly once, and no other |
| ExpenseRepository.ArgMaxTotal | src/main/java/com/financetracker/repository/ExpenseRepository.java:31 | the position of a category whose total is at least every other's |
| ExpenseRepository.SortedStatsCons | src/main/java/com/financetracker/repository/ExpenseRepository.java:31 | putting the largest group in front of the sorted rest gives a sorted list of all groups |
| ExpenseRepository.SortedStats | src/main/java/com/financetracker/repository/ExpenseRepository.java:30-31 | one entry per given category with its sum and count, ordered by total descending |
| ExpenseRepository.GetCategoryStats | src/main/java/com/financetracker/repository/ExpenseRepository.java:28-33 | over the owner's records dated in [start, end], every category present appears exactly once, with its amount sum and a record count of at least one, ordered by total descending |
| ExpenseRepository.StatCategories | src/main/java/com/financetracker/repository/ExpenseRepository.java:42 | the categories of the entries, position by position |
| ExpenseRepository.SumOverNothing | src/main/java/com/financetracker/repository/ExpenseRepository.java:30 | per-category sums over no records are zero |
| ExpenseRepository.SumOverFirst | src/main/java/com/financetracker/repository/ExpenseRepository.java:30 | per-category sums split into the first record's share plus the rest |
| ExpenseRepository.ShareOfAbsent | src/main/java/com/financetracker/repository/ExpenseRepository.java:30 | a record whose category is not listed contributes nothing |
| ExpenseRepository.ShareOfPresent | src/main/java/com/financetracker/repository/ExpenseRepository.java:30 | a record whose category is listed once contributes its full weight |
| ExpenseRepository.PartitionByCategory | src/main/java/com/financetracker/repository/ExpenseRepository.java:30 | grouping by distinct categories that cover all records loses and duplicates nothing |
| ExpenseRepository.StatsAsCategorySums | src/main/java/com/financetracker/repository/ExpenseRepository.java:30 | the summed totals and counts of the entries are the per-category sums over their categories |
| ExpenseRepository.CategoryStatsTotals | src/main/java/com/financetracker/repository/ExpenseRepository.java:29-30 | the entries' totals add up to the matched amount sum, and their counts to the number of matched records |
| ExpenseRepository.CategoryStatsEmpty | src/main/java/com/financetracker/repository/ExpenseRepository.java:29-30 | the aggregation has no entry exactly when nothing matched |
| ExpenseRepository.CountPositiveIffPresent | src/main/java/com/financetracker/repository/ExpenseRepository.java:30 | a category's `$sum: 1` count is never negative, and it is positive exactly when some record has that category |
| ExpenseRepository.CategoryStatsTop | src/main/java/com/financetracker/repository/ExpenseRepository.java:31 | the first entry's total is the largest of any category present |
| ExpenseService.SameIdSameRecord | src/main/java/com/financetracker/entity/Expense.java:24-25 | under unique ids, two stored records with the same id are the same record |
| ExpenseService.FindById | src/main/java/com/financetracker/service/impl/ExpenseServiceImpl.java:79 | returns a stored record with the id, or none when no record has it |
| ExpenseService.GetOwnedExpense | src/main/java/com/financetracker/service/impl/ExpenseServiceImpl.java:79-81 | Ok exactly when the caller owns a record with that id; another user's record gets the same NotFound as a missing one |
| ExpenseService.WithoutId | src/main/java/com/financetracker/service/impl/ExpenseServiceImpl.java:138 | keeps exactly the records whose id differs |
| ExpenseService.ExpenseStore.CreateExpense | src/main/java/com/financetracker/service/impl/ExpenseServiceImpl.java:42-53 | the record is stored under the caller's id and appended to the store |
| ExpenseService.ExpenseStore.DeleteExpense | src/main/java/com/financetracker/service/impl/ExpenseServiceImpl.java:130-140 | NotFound, with nothing changed, unless the caller owns the record; otherwise exactly that record is removed |
| ExpenseService.WithoutIdKeepsUnique | src/main/java/com/financetracker/service/impl/ExpenseServiceImpl.java:138 | deleting keeps ids unique |
| ExpenseService.ResolveMonth | src/main/java/com/financetracker/service/impl/ExpenseServiceImpl.java:146-150 | if month or year is missing, both become the current month and year |
| ExpenseService.GetMonthlyStats | src/main/java/com/financetracker/service/impl/ExpenseServiceImpl.java:143-189 | the month's total and count; the HALF_UP average (0 for no records), non-negative when the total is and non-positive when the total is; the top category and its amount (none and 0 for an empty month). The top category has the largest total of any category present. An invalid month is rejected. |
| ExpenseService.MonthlyStatsOfEmptyMonth | src/main/java/com/financetracker/service/impl/ExpenseServiceImpl.java:163-178 | a month without expenses reports zeros and no top category |
| ExpenseService.MissingDefaults | src/main/java/com/financetracker/service/impl/ExpenseServiceImpl.java:199-203 | holds exactly the defaults not already in the user's list |
| ExpenseService.MissingDefaultsDistinct | src/main/java/com/financetracker/service/impl/ExpenseServiceImpl.java:199-203 | the appended defaults have no repeats |
| ExpenseService.MergeDistinct | src/main/java/com/financetracker/service/impl/ExpenseServiceImpl.java:196-205 | user categories followed by the missing defaults have no repeats |
| ExpenseService.DefaultCategoriesDistinct | src/main/java/com/financetracker/service/impl/ExpenseServiceImpl.java:35-38 | DEFAULT_CATEGORIES has no repeats |
| ExpenseService.GetCategories | src/main/java/com/financetracker/service/impl/ExpenseServiceImpl.java:192-206 | the user's categories in order, then each missing default in DEFAULT_CATEGORIES order. Every default is present, the categories are exactly the defaults plus the user's, and none repeats. |
| BudgetService.FindByKey | src/main/java/com/financetracker/repository/BudgetRepository.java:15 | the position of a budget with that (user, month, year), or none exactly when no budget has the key |
| BudgetService.KeyIsUnique | src/main/java/com/financetracker/entity/Budget.java:22 | under the compound unique index, at most one budget exists per key |
| BudgetService.FindByKeyFindsUnique | src/main/java/com/financetracker/repository/BudgetRepository.java:15 | with the unique index in force, the lookup by (user, month, year) returns exactly the position of the budget holding that key |
| BudgetService.SetLimitKeepsValid | src/main/java/com/financetracker/service/impl/BudgetServiceImpl.java:64-65 | saving a found budget with a new limit keeps ids unique, the (user, month, year) index unique and months in 1..12 |
| BudgetService.AppendKeepsValid | src/main/java/com/financetracker/service/impl/BudgetServiceImpl.java:58-65 | inserting a budget whose id and key are not yet taken, with a month in 1..12, keeps the collection invariant |
| BudgetService.Enrich | src/main/java/com/financetracker/service/impl/BudgetServiceImpl.java:71-94 | spent is the month's total, and remaining + spent == limit with no clamping. percentUsed is the HALF_UP percentage for a positive limit and 0 otherwise. With a positive limit it is non-negative when spent is, and non-positive when spent is. |
| BudgetService.SpentIsCalendarMonth | src/main/java/com/financetracker/service/impl/BudgetServiceImpl.java:74-81 | spent counts exactly the owner's expenses dated in the budget's month |
| BudgetService.PercentUsedReachesHundred | src/main/java/com/financetracker/service/impl/BudgetServiceImpl.java:83-86 | spending at least the limit reports at least 100.00% and no positive remainder; the figure is not capped |
| BudgetService.PercentUsedBelowLimit | src/main/java/com/financetracker/service/impl/BudgetServiceImpl.java:83-86 | spending under the limit leaves a positive remainder and at most 100.00% used |
| BudgetService.BudgetExample | src/main/java/com/financetracker/service/impl/BudgetServiceImpl.java:83-86 | Example: a 500.00 limit with 200.50 spent leaves 299.50 and reports 40.10% |
| BudgetService.BudgetTieRoundsUp | src/main/java/com/financetracker/service/impl/BudgetServiceImpl.java:85 | Example: 0.005% (0.01 of 200.00) rounds up to 0.01% |
| BudgetService.BudgetStore.GetBudgetByMonthAndYear | src/main/java/com/financetracker/service/impl/BudgetServiceImpl.java:39-48 | NotFound exactly when the caller has no budget for that month and year; otherwise the stored budget, enriched |
| BudgetService.BudgetStore.GetCurrentBudget | src/main/java/com/financetracker/service/impl/BudgetServiceImpl.java:33-36 | exactly `GetBudgetByMonthAndYear` for the current month and year, so NotFound exactly when there is no budget, else that budget enriched with the current month's spending, remaining amount and percentage |
| BudgetService.BudgetStore.CreateOrUpdateBudget | src/main/java/com/financetracker/service/impl/BudgetServiceImpl.java:51-69 | an existing budget for the key gets the new limit in place, keeping id, user, month and year; otherwise a new budget is appended. The unique index is preserved, and a following lookup returns the result. |
| SavingsGoals.Progress | src/main/java/com/financetracker/entity/SavingsGoal.java:54-59 | 0 for a zero target; otherwise currentAmount*100/target, HALF_UP at scale 2. Non-negative when amount and target have the same sign, non-positive when their signs differ. |
| SavingsGoals.ProgressMilestones | src/main/java/com/financetracker/entity/SavingsGoal.java:58 | exactly 100.00% at the target, at least 100.00% above it, within [0, 100.00%] below it, at least 200.00% at double: not capped |
| SavingsGoals.ApplyDeposit | src/main/java/com/financetracker/service/impl/SavingsGoalServiceImpl.java:101-112 | BadRequest exactly for a completed goal. Otherwise the amount is added, completed then holds exactly when the target is reached, and nothing else changes. |
| SavingsGoals.CompletedIsFinal | src/main/java/com/financetracker/service/impl/SavingsGoalServiceImpl.java:101-103 | a completed goal is never changed by any run of deposits |
| SavingsGoals.DepositsKeepCompletionTracking | src/main/java/com/financetracker/service/impl/SavingsGoalServiceImpl.java:105-112 | completed stays equivalent to current >= target across any run of deposits |
| SavingsGoals.OpenGoalSavedEveryDeposit | src/main/java/com/financetracker/service/impl/SavingsGoalServiceImpl.java:105-106 | a goal still open after a run of deposits holds its old amount plus all of them |
| SavingsGoals.DepositCompletesGoal | src/main/java/com/financetracker/service/impl/SavingsGoalServiceImpl.java:101-112 | Example: 900.00 of 1000.00 plus 150.00 completes the goal at 105.00%, and the next deposit is refused |
| SavingsGoals.OwnedGoals | src/main/java/com/financetracker/repository/SavingsGoalRepository.java:13 | exactly the caller's goals |
| SavingsGoals.CountCompleted | src/main/java/com/financetracker/service/impl/SavingsGoalServiceImpl.java:139 | between 0 and the number of goals |
| SavingsGoals.CountActive | src/main/java/com/financetracker/service/impl/DashboardServiceImpl.java:67 | between 0 and the number of goals |
| SavingsGoals.CompletedPlusActive | src/main/java/com/financetracker/service/impl/SavingsGoalServiceImpl.java:139-140 | completed + active == number of goals |
| SavingsGoals.SumTargets | src/main/java/com/financetracker/service/impl/SavingsGoalServiceImpl.java:127-129 | with every target at least 0.01, the target sum is at least 0.01 per goal, so positive as soon as there is a goal |
| SavingsGoals.SumSaved | src/main/java/com/financetracker/service/impl/SavingsGoalServiceImpl.java:131-133 | with no negative saved amount, the saved sum is not negative |
| SavingsGoals.SavedCoversTargets | src/main/java/com/financetracker/service/impl/SavingsGoalServiceImpl.java:127-133 | when every goal has reached its target, the saved sum covers the target sum |
| SavingsGoals.GetProgress | src/main/java/com/financetracker/service/impl/SavingsGoalServiceImpl.java:121-150 | sums of the caller's targets and savings; the HALF_UP overall percentage, 0 when the target sum is not positive, and otherwise non-negative or non-positive as the saved sum is; completed + active == total goals |
| SavingsGoals.OverallProgressWhenAllReached | src/main/java/com/financetracker/service/impl/SavingsGoalServiceImpl.java:135-140 | with every goal completed, overall progress is at least 100.00% and no goal is active |
| SavingsGoals.AllCompletedNoneActive | src/main/java/com/financetracker/service/impl/SavingsGoalServiceImpl.java:139-140 | with every goal completed none is active |
| SavingsGoals.FindGoal | src/main/java/com/financetracker/repository/SavingsGoalRepository.java:15 | the position of the caller's goal with the id, or none exactly when there is none |
| SavingsGoals.GoalStore.CreateGoal | src/main/java/com/financetracker/service/impl/SavingsGoalServiceImpl.java:31-44 | the new goal belongs to the caller, has nothing saved, is not completed, is at 0% and is appended |
| SavingsGoals.GoalStore.Deposit | src/main/java/com/financetracker/service/impl/SavingsGoalServiceImpl.java:94-118 | NotFound for a goal the caller does not own; otherwise the goal as ApplyDeposit leaves it, stored only when accepted |
| SplitBills.BuiltBill | src/main/java/com/financetracker/entity/SplitBill.java:37-43 | a built bill has no participants, is not settled, nothing paid and its total remaining |
| SplitBills.BuiltParticipant | src/main/java/com/financetracker/entity/Participant.java:24-25 | a built participant is not paid and contributes nothing to the paid amount |
| SplitBills.PaidAmount | src/main/java/com/financetracker/entity/SplitBill.java:51-56 | getPaidAmount: 0 while nobody has paid, the sum owed once everyone has, and with non-negative shares between the two |
| SplitBills.RemainingAmount | src/main/java/com/financetracker/entity/SplitBill.java:58-60 | getRemainingAmount: the whole total while nobody has paid, the total less all shares once everyone has, and with non-negative shares between the two |
| SplitBills.PaidOfBounds | src/main/java/com/financetracker/entity/SplitBill.java:51-56 | the paid sum is 0 when nobody paid and everything owed when everyone did; with non-negative shares it lies between the two |
| SplitBills.PaidOfUpdate | src/main/java/com/financetracker/entity/SplitBill.java:51-56 | replacing one participant changes the paid amount by that participant's share only |
| SplitBills.PaidOfAppend | src/main/java/com/financetracker/entity/SplitBill.java:51-56 | the paid amount of two lists joined is the sum of their paid amounts |
| SplitBills.FirstWithId | src/main/java/com/financetracker/service/impl/SplitBillServiceImpl.java:134-136 | the first participant with the id, or none exactly when no participant has it |
| SplitBills.MarkPaid | src/main/java/com/financetracker/service/impl/SplitBillServiceImpl.java:134-146 | NotFound exactly when no participant has the id. Otherwise only the first such participant is paid, and settled becomes old settled or all paid. |
| SplitBills.MarkPaidAddsShare | src/main/java/com/financetracker/service/impl/SplitBillServiceImpl.java:139-146 | marking moves the participant's share, once, from the remaining amount to the paid amount, with the total unchanged; settled is never cleared; all paid implies settled |
| SplitBills.FirstWithIdSameIds | src/main/java/com/financetracker/service/impl/SplitBillServiceImpl.java:134-136 | lists with the same ids position by position find the same first match |
| SplitBills.DistinctIdsSameIndex | src/main/java/com/financetracker/service/impl/SplitBillServiceImpl.java:40-46 | under distinct ids, a participant is identified by its id |
| SplitBills.MarkPaidIdempotent | src/main/java/com/financetracker/service/impl/SplitBillServiceImpl.java:134-146 | marking the same participant twice gives the same bill as marking once |
| SplitBills.MarkAllProgress | src/main/java/com/financetracker/service/impl/SplitBillServiceImpl.java:134-146 | a run of marks changes only paid flags and settled; it never clears a paid flag or settled; every participant whose id was marked is paid |
| SplitBills.AllPaidAfterMarkingSettles | src/main/java/com/financetracker/service/impl/SplitBillServiceImpl.java:142-146 | if a run of marks that found someone leaves everyone paid, the bill is settled |
| SplitBills.MarkingEveryoneSettles | src/main/java/com/financetracker/service/impl/SplitBillServiceImpl.java:139-146 | marking every participant, in any order, settles the bill with everything owed paid |
| SplitBills.PaidAllOwed | src/main/java/com/financetracker/entity/SplitBill.java:51-56 | when everyone is paid, the paid amount is the sum owed |
| SplitBills.MarkAllSnoc | src/main/java/com/financetracker/service/impl/SplitBillServiceImpl.java:127-150 | one more mark is one more markParticipantAsPaid on the bill so far |
| SplitBills.DinnerAfterOne | src/main/java/com/financetracker/service/impl/SplitBillServiceImpl.java:134-146 | Example: the first payment of the three-way dinner bill sets only that participant's flag and leaves 30.00 paid |
| SplitBills.DinnerAfterTwo | src/main/java/com/financetracker/entity/SplitBill.java:51-60 | Example: a 90.00 bill in three 30.00 shares, two paid: 60.00 paid, 30.00 remaining, not settled |
| SplitBills.DinnerSettles | src/main/java/com/financetracker/service/impl/SplitBillServiceImpl.java:142-146 | Example: after the third payment the bill is settled with 0 remaining |
| SplitBills.AddingToSettledBillKeepsItSettled | src/main/java/com/financetracker/service/impl/SplitBillServiceImpl.java:119 | appending an unpaid participant to a settled bill leaves it settled though not everyone has paid |
| SplitBills.UuidSource.Next | src/main/java/com/financetracker/service/impl/SplitBillServiceImpl.java:43 | hands out the next value of the stream |
| SplitBills.AssignMissingIds | src/main/java/com/financetracker/service/impl/SplitBillServiceImpl.java:40-46 | each participant without an id gets the next UUID in order; the others keep theirs; nothing else changes and all end identified |
| SplitBills.FindBill | src/main/java/com/financetracker/repository/SplitBillRepository.java:15 | the position of the caller's bill with the id, or none exactly when there is none |
| SplitBills.SplitBillStore.CreateSplitBill | src/main/java/com/financetracker/service/impl/SplitBillServiceImpl.java:31-52 | the new bill belongs to the caller and is not settled. Missing participant ids are assigned and existing ones kept, and the bill is appended. |
| SplitBills.SplitBillStore.AddParticipants | src/main/java/com/financetracker/service/impl/SplitBillServiceImpl.java:102-124 | NotFound with nothing changed for a bill the caller does not own. Otherwise the stored bill is replaced by one whose list is the old list followed by the new participants in input order, each keeping an id it had and getting one otherwise. Exactly one UUID is drawn per participant without an id, and in input order each such participant gets the next value of the stream. Total, settled and every other field are kept. |
| SplitBills.AppendedPaidAmount | src/main/java/com/financetracker/entity/SplitBill.java:51-60 | after participants are appended, the paid amount grows and the remaining amount shrinks by the new participants' paid shares; total and settled are unchanged |
| SplitBills.SplitBillStore.MarkParticipantAsPaid | src/main/java/com/financetracker/service/impl/SplitBillServiceImpl.java:127-150 | NotFound for a bill the caller does not own; otherwise the bill as MarkPaid leaves it, stored only when found |
| SplitBills.PaidOfIgnoresIds | src/main/java/com/financetracker/service/impl/SplitBillServiceImpl.java:109-119 | assigning ids does not change the paid amount |
| SplitBills.OwnedBills | src/main/java/com/financetracker/repository/SplitBillRepository.java:13 | exactly the caller's bills |
| SplitBills.CountSettled | src/main/java/com/financetracker/service/impl/SplitBillServiceImpl.java:160 | between 0 and the number of bills |
| SplitBills.CountUnsettled | src/main/java/com/financetracker/repository/SplitBillRepository.java:17 | between 0 and the number of bills |
| SplitBills.SettledPlusUnsettled | src/main/java/com/financetracker/service/impl/SplitBillServiceImpl.java:159-161 | settled + unsettled == number of bills |
| SplitBills.PendingIsSumOfRemaining | src/main/java/com/financetracker/service/impl/SplitBillServiceImpl.java:163-171 | owed minus paid is the sum of each bill's remaining amount |
| SplitBills.GetSummary | src/main/java/com/financetracker/service/impl/SplitBillServiceImpl.java:153-181 | counts and sums over the caller's bills: settled + pending == total, pending is the unsettled count, and paid + pending amount == owed |
| Dashboard.GetStats | src/main/java/com/financetracker/service/impl/DashboardServiceImpl.java:41-101 | all-time and current-month totals; saved sum and goal counts (active + completed == goals); the current budget's limit, remaining and HALF_UP percentage, all 0 without a budget, the percentage non-negative or non-positive as the month's spending is; the unsettled bill count |
| Dashboard.StatsAgreeWithServices | src/main/java/com/financetracker/service/impl/DashboardServiceImpl.java:63-99 | the dashboard's goal counts and saved total, pending bill count and month total equal those of getProgress, getSummary and getMonthlyStats |
| Dashboard.StatsBudgetAgrees | src/main/java/com/financetracker/service/impl/DashboardServiceImpl.java:71-83 | when the caller has a budget for the current month, the dashboard's limit, remaining amount and percentage are those of that budget as getCurrentBudget enriches it |
| Dashboard.WithShares | src/main/java/com/financetracker/service/impl/DashboardServiceImpl.java:119-134 | one entry per aggregation entry in order; the percentage of the total, HALF_UP, or 0 when the total is not positive; with a positive total, each percentage is non-negative or non-positive as its amount is |
| Dashboard.AsStats | src/main/java/com/financetracker/service/impl/DashboardServiceImpl.java:127-132 | reads each breakdown entry back as its category, amount and count |
| Dashboard.GetSpendingBreakdown | src/main/java/com/financetracker/service/impl/DashboardServiceImpl.java:104-135 | one entry per category of the month, each with its sum and count, largest first. Each percentage is the HALF_UP share of the month's total (0 if the total is not positive) and has the sign of its amount. The list is empty exactly when nothing was spent. |
| Dashboard.BreakdownOfStats | src/main/java/com/financetracker/service/impl/DashboardServiceImpl.java:115-134 | sharing out any aggregation output of the month's records by the sum of its totals gives their breakdown: the same entries in order, each percentage the HALF_UP share of the records' total, empty exactly when nothing matched |
| Dashboard.WithSharesBounds | src/main/java/com/financetracker/service/impl/DashboardServiceImpl.java:122-125 | with a positive total, each entry's percentage is its amount times 100 divided by the total at scale 2, rounded HALF_UP (within half a hundredth), and non-negative or non-positive as its amount is |
| Dashboard.AsStatsWithShares | src/main/java/com/financetracker/service/impl/DashboardServiceImpl.java:119-134 | the breakdown carries exactly the aggregation entries it was built from |
| Dashboard.PercentagesSumBounds | src/main/java/com/financetracker/service/impl/DashboardServiceImpl.java:122-125 | the summed percentages are within half a hundredth per entry of 100 × (amount sum / total) |
| Dashboard.SumInNonNegative | src/main/java/com/financetracker/repository/ExpenseRepository.java:30 | non-negative amounts give non-negative category sums |
| Dashboard.SumAmountsIsSumTotals | src/main/java/com/financetracker/service/impl/DashboardServiceImpl.java:115-117 | the breakdown amounts add up to the aggregation totals |
| Dashboard.HundredWithinHalfPerEntry | src/main/java/com/financetracker/service/impl/DashboardServiceImpl.java:122-125 | dividing the summed bounds by the total gives 100.00% within half a hundredth per entry |
| Dashboard.EntryNonNegative | src/main/java/com/financetracker/repository/ExpenseRepository.java:30 | with non-negative amounts each aggregation total is non-negative |
| Dashboard.BreakdownEntriesNonNegative | src/main/java/com/financetracker/service/impl/DashboardServiceImpl.java:119-134 | with non-negative amounts every breakdown amount and percentage is non-negative |
| Dashboard.BreakdownPercentagesSumToHundred | src/main/java/com/financetracker/service/impl/DashboardServiceImpl.java:115-134 | with non-negative amounts and some spending, the percentages add up to 100.00% within half a hundredth per category |
| Dashboard.GetSpendingTrends | src/main/java/com/financetracker/service/impl/DashboardServiceImpl.java:138-167 | n entries for a positive n (6 when not given) and none for other n, except Integer.MIN_VALUE, where `numMonths - 1` wraps to Integer.MAX_VALUE and 2^31 entries result. Oldest first: entry k is the month count-1-k months back, with its number, year, short name and the caller's spending in it. |
| Dashboard.WrapInt32 | src/main/java/com/financetracker/service/impl/DashboardServiceImpl.java:146 | Java int arithmetic: the result is a 32-bit value, equal to the exact one when that fits, and 2^32 above or below it one turn out of range |
| Dashboard.WrapInt32Congruent | src/main/java/com/financetracker/service/impl/DashboardServiceImpl.java:146 | the wrapped value agrees with the exact one modulo 2^32 |
| Dashboard.CountdownFromWrapped | src/main/java/com/financetracker/service/impl/DashboardServiceImpl.java:140-146 | the loop `for (int i = numMonths - 1; i >= 0; i--)` makes max(numMonths, 0) steps, or 2^31 for Integer.MIN_VALUE |
| Dashboard.CollectTrends | src/main/java/com/financetracker/service/impl/DashboardServiceImpl.java:146-164 | counting i down from n-1 to 0 yields max(n, 0) entries, entry k for the month n-1-k months back |
| Dashboard.TrendOf | src/main/java/com/financetracker/service/impl/DashboardServiceImpl.java:147-163 | a month's entry has its month number and year, the short name that is the first three letters of the full English name, and the sum of the caller's expenses dated in it |
| Dashboard.MonthTrend | src/main/java/com/financetracker/service/impl/DashboardServiceImpl.java:147-163 | the entry for one month carries its number, year and short English name, and the sum of the caller's expenses from its first to its last day |
| Dashboard.TrendAppend | src/main/java/com/financetracker/service/impl/DashboardServiceImpl.java:146-164 | if entry k of a partial trend is the month n-1-k months back for every k, that still holds after appending the entry for the next month in line |
| Dashboard.TrendMonthsConsecutive | src/main/java/com/financetracker/service/impl/DashboardServiceImpl.java:146-147 | the last trend entry is the current month, and consecutive entries are one calendar month apart across year boundaries |

## Left out

- HTTP controllers, response wrapping, the exception handler, authentication, JWT, e-mail and the security context are not modelled. The current user is a parameter.
- Logging, auditing timestamps, MongoConfig and the `save` round-trip are not modelled. A store method's result is the record as it would be saved.
- File storage and `createExpenseWithFile` are not modelled; they are filesystem I/O with random file names.
- Update operations (`updateExpense`, `updateGoal`, `updateSplitBill`) are modelled only through their ownership check, `ExpenseService.GetOwnedExpense`. The field copying they delegate to generated mapper code is not visible.
- The read-only list endpoints (`getAllExpenses` with paging, `getExpensesByCategory`, `getExpensesByDateRange`, `getAll*`, `get*ById`) are modelled only through the finders they call and the shared ownership lookup.
- Concurrency is not modelled. Last-write-wins between concurrent deposits or payments is a storage-layer concern.
- `CategoryStats.getTotal()` is a `Double`, read back through `BigDecimal.valueOf`. The model keeps category totals as exact cents, so the double round-trip is not modelled.
- Amounts finer than a cent are not modelled; every amount is held at scale 2.
- `findByUserIdAndDateBetween` is modelled as the inclusive month window. Its bound inclusivity is defined by the Spring Data library and is not established here.
- The order of Mongo `$group` output and of equal totals under `$sort` is not specified by MongoDB. The model fixes first-occurrence order and a stable first-maximum choice; the properties proved hold for any output that `ExpenseRepository.IsCategoryStatsOf` accepts.
- SavingsGoals.GoalStore.Valid: the store invariant keeps goal ids unique but does not include "completed exactly when the target is reached". `updateGoal` copies the request onto the goal through mapper code that is not visible, and that can set completed, target and saved amount independently. `ApplyDeposit` re-establishes the equivalence on every accepted deposit.
- A null `targetAmount` on a goal is not modelled. The DTO requires a target of at least 0.01, so targets are integers.
- A null participant list on a new bill is modelled as the empty list.
- SplitBills.MarkPaid: the source throws NullPointerException when its search reaches a participant without an id before the match (`updateSplitBill` can store such participants, because the mapper copies them unchecked); the model treats such a participant as not matching and goes on searching.
- SplitBills.PaidAmount: shares are modelled as integers, never null. In the source a paid participant with a null `amountOwed` (the DTO does not require one) makes `getPaidAmount` throw NullPointerException; since every response passes through `toDto`, this would fail `createSplitBill`, `addParticipants` and `markParticipantAsPaid` after the save and every later `getSummary`.
- The randomness and uniqueness of `UUID.randomUUID()` are not modelled; `UuidSource` hands out whatever stream it is given.
- A client-supplied document id on `createGoal` and `createSplitBill` (which Mongo would treat as an upsert) is not modelled. New documents always get a fresh `newId`. `ExpenseDto` is not part of this model; should it carry an id, the same holds for `createExpense`.
- `DepositRequest` is not part of this model, so deposit amounts carry no precondition.
- The year range of java.time (±999,999,999) is not modelled: years are unbounded integers. Likewise `getMonthlyStats` rejects only an invalid month.
- Dashboard.GetSpendingTrends: for Integer.MIN_VALUE the model follows the int wrap-around and yields 2^31 entries; the JVM would run out of list capacity or memory first, and those limits are not modelled.
- Dashboard.GetSpendingTrends: the consecutive-month property is proved separately in `Dashboard.TrendMonthsConsecutive`, about any list meeting the method's postcondition, rather than as a postcondition of the method itself.

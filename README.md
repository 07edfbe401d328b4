# Expense logger core in Dafny

This project models the core of an Android expense logger (Kotlin, Room):

- the `expenses` table behind the Room DAO;
- the repository in front of the DAO;
- the calendar helpers that compute day and month boundaries in epoch milliseconds;
- the build-flavour admission policy;
- the add-expense use case, which checks the daily count and then inserts;
- the monthly-overview use case, which totals a month and groups it by category.

Modules:

- **`Wrappers`** (`wrappers.dfy`): `Option` (with Kotlin's `?:` as `GetOr`) and `Result`.
- **`Expenses`** (`expense.dfy`): the `Expense` row, Kotlin's `Long` as a subset type, and `TotalOf` (`sumOf { it.amount }`) with its permutation lemma.
- **`ExpenseStore`** (`expense_store.dfy`): the table as a `map<int, Expense>` plus SQLite's AUTOINCREMENT counter.
  - The SELECT queries are pure functions of the rows.
  - The mutations are functions from table to table.
  - `class ExpenseDao` holds the two fields and applies the mutations in place.
  - A store failure is an optional `Fault` passed to each DAO call. A failed call changes nothing.
- **`Repository`** (`expense_repository.dfy`): `class ExpenseRepository` forwards every call to its DAO and turns a null sum into 0.
- **`DateUtils`** (`date_utils.dfy`): a proleptic Gregorian calendar at a fixed zone offset.
  - Calendar arithmetic: day numbers, leap years, days in a month, and the round trip between day number and date.
  - Boundaries: start and end of a day or a month.
  - Month key: the `yyyy-MM` key and a parser that reads it back.
- **`BuildConfigHelper`** (`build_config_helper.dfy`): the two flavours and `CanAddMoreEntries`.
- **`AddExpense`** (`add_expense_use_case.dfy`):
  - the use case's `Result` type, named `Outcome`;
  - a specification function `Decide` giving the outcome and the resulting table;
  - `class AddExpenseUseCase`, whose imperative `Execute` is proved equal to `Decide`;
  - lemmas for each branch.
- **`GetMonthlyOverview`** (`monthly_overview.dfy`):
  - `groupBy`/`mapValues` over the month's rows;
  - the `MonthlyOverview` record;
  - `class GetMonthlyOverviewUseCase`, whose `Execute` returns the overview the flow emits for the current table.

Modelling decisions:

- Amounts are whole cents (`int`), so sums are exact.
- Clock readings and the zone offset are parameters.
- Store failures are parameters (`fault`, `countFault`, `insertFault`). A fault whose message is `None` stands for an exception with a null message.
- Ids. With `@PrimaryKey(autoGenerate = true)`, Room creates the key as `INTEGER PRIMARY KEY AUTOINCREMENT`, which applies three rules:
  - a new row gets one more than the largest id the table has ever used;
  - ids are never reused, even after `deleteAllExpenses` (`ExpenseStore.IdsNeverReused`);
  - once the largest `Long` has been used, the insert fails with SQLITE_FULL ("database or disk is full").
- An insert with an explicit id raises the counter to that id if the id is larger.
- `ORDER BY date DESC` leaves the order of rows with equal dates open. The model's `Select` keeps such rows in ascending-id order. Every contract states only "sorted by date, latest first" and "exactly these rows".
- The add-expense outcomes are named as in `AddExpenseUseCase.kt`: `Success`, `DailyLimitReached` and `Error`.

## Model

| member | source | states |
|---|---|---|
| DateUtils.StartOfDay | source-code/final-project/app/src/main/java/com/droidcon/expenselogger/util/DateUtils.kt:13-22 | the result is a local midnight (result + offset is a multiple of 86 400 000), at most t and less than one day before it, on the same local day as t |
| DateUtils.EndOfDay | source-code/final-project/app/src/main/java/com/droidcon/expenselogger/util/DateUtils.kt:24-33 | the result is start of day + 86 399 999 (23:59:59.999), at least t, on t's day; one millisecond later is the next day |
| DateUtils.SameDayIff | source-code/final-project/app/src/main/java/com/droidcon/expenselogger/util/DateUtils.kt:13-33 | u lies between start and end of t's day exactly when u falls on t's local day |
| DateUtils.DaysInMonth | source-code/final-project/app/src/main/java/com/droidcon/expenselogger/util/DateUtils.kt:50 | the actual maximum of DAY_OF_MONTH is 28 to 31, and 29 exactly for February of a Gregorian leap year |
| DateUtils.CivilFromDays | source-code/final-project/app/src/main/java/com/droidcon/expenselogger/util/DateUtils.kt:36-37 | setting timeInMillis yields a valid calendar date whose day number is the given one |
| DateUtils.DaysFromCivilInjective | source-code/final-project/app/src/main/java/com/droidcon/expenselogger/util/DateUtils.kt:36-43 | distinct valid dates have distinct day numbers |
| DateUtils.CivilRoundTrip | source-code/final-project/app/src/main/java/com/droidcon/expenselogger/util/DateUtils.kt:36-43 | date to day number and back gives the same date, so setting the fields of a date is read back unchanged |
| DateUtils.StartOfMonth | source-code/final-project/app/src/main/java/com/droidcon/expenselogger/util/DateUtils.kt:35-45 | the result is at most t, a local midnight, and falls on day 1 of t's month |
| DateUtils.EndOfMonth | source-code/final-project/app/src/main/java/com/droidcon/expenselogger/util/DateUtils.kt:47-57 | the result is at least t, is 23:59:59.999 of its day, and falls on the last day (28 to 31) of t's month |
| DateUtils.MonthBoundsStable | source-code/final-project/app/src/main/java/com/droidcon/expenselogger/util/DateUtils.kt:13-57 | start of day and start of month are idempotent; the end of the month of the month's start is the month's end, and the start of the month of the month's end is the month's start |
| DateUtils.EndOfMonthNext | source-code/final-project/app/src/main/java/com/droidcon/expenselogger/util/DateUtils.kt:47-57 | the millisecond after the month's end is local midnight of the next month's first day |
| DateUtils.NextMonthFollows | source-code/final-project/app/src/main/java/com/droidcon/expenselogger/util/DateUtils.kt:35-57 | end of month + 1 is its own start of month and is day 1 of the following month (December to January of the next year), so consecutive months leave no gap |
| DateUtils.SameMonthIff | source-code/final-project/app/src/main/java/com/droidcon/expenselogger/util/DateUtils.kt:35-57 | u lies between start and end of t's month exactly when u falls in t's local year and month |
| DateUtils.MonthEdges | source-code/final-project/app/src/main/java/com/droidcon/expenselogger/util/DateUtils.kt:35-57 | the month's first and last millisecond are in the month; one millisecond after the last is not |
| DateUtils.MonthRangeIsMonth | source-code/final-project/app/src/main/java/com/droidcon/expenselogger/util/DateUtils.kt:35-57 | the same equivalence for every u at once |
| DateUtils.FormatMonth | source-code/final-project/app/src/main/java/com/droidcon/expenselogger/util/DateUtils.kt:67-69 | the key of t's local month reads back (by ParseMonthKey) to the year of era and the month of t |
| DateUtils.MonthKeyRoundTrip | source-code/final-project/app/src/main/java/com/droidcon/expenselogger/util/DateUtils.kt:9 | for every year and month, the `yyyy-MM` key of the pair parses back to the year of era and the month |
| DateUtils.MonthKeyShape | source-code/final-project/app/src/main/java/com/droidcon/expenselogger/util/DateUtils.kt:9 | for years of era 1 to 9999 the key is `yyyy-MM`: 7 characters, '-' at index 4, digits elsewhere |
| DateUtils.CurrentMonth | source-code/final-project/app/src/main/java/com/droidcon/expenselogger/util/DateUtils.kt:71-73 | the key of the clock reading's month, which parses back to its year of era and month |
| DateUtils.CurrentMonthStartEnd | source-code/final-project/app/src/main/java/com/droidcon/expenselogger/util/DateUtils.kt:75-78 | the pair brackets now, and a timestamp lies in it exactly when it falls in now's local month |
| BuildConfigHelper.CanAddMoreEntries | source-code/final-project/app/src/main/java/com/droidcon/expenselogger/util/BuildConfigHelper.kt:10-16 | one more entry is admitted exactly when the flavour is paid or the day's count is below maxDailyEntries |
| BuildConfigHelper.PaidAlwaysAdmits | source-code/final-project/app/src/main/java/com/droidcon/expenselogger/util/BuildConfigHelper.kt:10-13 | with the paid flag every count is admitted |
| BuildConfigHelper.FreeAdmitsBelowLimit | source-code/final-project/app/src/main/java/com/droidcon/expenselogger/util/BuildConfigHelper.kt:10-16 | without the paid flag a count is admitted exactly when it is below maxDailyEntries |
| BuildConfigHelper.RejectionMonotone | source-code/final-project/app/src/main/java/com/droidcon/expenselogger/util/BuildConfigHelper.kt:14 | once a count is rejected, every larger count is rejected |
| BuildConfigHelper.FlavorValues | source-code/starter-project/app/build.gradle.kts:55-63 | free limit 10 and paid limit Integer.MAX_VALUE, both positive; free admits 0 to 9 (so 5) and rejects 10 |
| Expenses.TotalOf | source-code/final-project/app/src/main/java/com/droidcon/expenselogger/domain/usecase/GetMonthlyOverviewUseCase.kt:28 | the sum of amounts is never negative when no amount is |
| Expenses.TotalOfSnoc | source-code/final-project/app/src/main/java/com/droidcon/expenselogger/domain/usecase/GetMonthlyOverviewUseCase.kt:28 | `sumOf` as a running sum from the front: the total of a non-empty list is the total of all but its last row plus the last row's amount |
| Expenses.TotalOfConcat | source-code/final-project/app/src/main/java/com/droidcon/expenselogger/domain/usecase/GetMonthlyOverviewUseCase.kt:28 | the sum of amounts of two lists joined is the sum of their sums |
| Expenses.TotalOfPermutation | source-code/final-project/app/src/main/java/com/droidcon/expenselogger/data/dao/ExpenseDao.kt:22-23 | the sum of amounts does not depend on row order, so SUM over the rows equals the sum over the ordered query |
| ExpenseStore.Scan | source-code/final-project/app/src/main/java/com/droidcon/expenselogger/data/dao/ExpenseDao.kt:10 | a full scan contains every stored row exactly once and nothing else |
| ExpenseStore.FilterCount | source-code/final-project/app/src/main/java/com/droidcon/expenselogger/data/dao/ExpenseDao.kt:16-20 | a WHERE clause keeps every copy of a matching row and drops all others |
| ExpenseStore.InsertByDate | source-code/final-project/app/src/main/java/com/droidcon/expenselogger/data/dao/ExpenseDao.kt:10 | inserting into a latest-first list keeps it latest-first and adds exactly that row |
| ExpenseStore.SortByDateDesc | source-code/final-project/app/src/main/java/com/droidcon/expenselogger/data/dao/ExpenseDao.kt:10 | ORDER BY date DESC gives a permutation of its input with no earlier row before a later one |
| ExpenseStore.Select | source-code/final-project/app/src/main/java/com/droidcon/expenselogger/data/dao/ExpenseDao.kt:10-20 | a SELECT holds each stored row matching the WHERE clause exactly once, nothing else, sorted latest first |
| ExpenseStore.AllExpenses | source-code/final-project/app/src/main/java/com/droidcon/expenselogger/data/dao/ExpenseDao.kt:10-11 | every stored row once, latest first |
| ExpenseStore.ExpenseById | source-code/final-project/app/src/main/java/com/droidcon/expenselogger/data/dao/ExpenseDao.kt:13-14 | null exactly when no row has that id, otherwise the row stored under it |
| ExpenseStore.ExpensesByDateRange | source-code/final-project/app/src/main/java/com/droidcon/expenselogger/data/dao/ExpenseDao.kt:16-17 | exactly the stored rows with start <= date <= end (both bounds included), each once, latest first |
| ExpenseStore.ExpensesByCategory | source-code/final-project/app/src/main/java/com/droidcon/expenselogger/data/dao/ExpenseDao.kt:19-20 | exactly the stored rows of that category, each once, latest first |
| ExpenseStore.TotalAmountByDateRange | source-code/final-project/app/src/main/java/com/droidcon/expenselogger/data/dao/ExpenseDao.kt:22-23 | null exactly when the range query is empty, otherwise the sum of the amounts of the range query |
| ExpenseStore.ExpenseCountByDateRange | source-code/final-project/app/src/main/java/com/droidcon/expenselogger/data/dao/ExpenseDao.kt:25-26 | the count is the length of the range query, and 0 exactly when no stored row is in range |
| ExpenseStore.InsertRow | source-code/final-project/app/src/main/java/com/droidcon/expenselogger/data/dao/ExpenseDao.kt:28-29 | fails (SQLITE_FULL) exactly for id 0 with the counter at the largest Long; otherwise the row is stored, with only its id changed, under the returned id: the given id if nonzero (replacing any row there), else a fresh id above the counter; the table stays well formed and no other id changes; the counter becomes the larger of itself and the returned id |
| ExpenseStore.IdsNeverReused | source-code/final-project/app/src/main/java/com/droidcon/expenselogger/data/dao/ExpenseDao.kt:28-41 | once every row is deleted (the counter is kept), an auto-assigned id is above every id the table held before, and the counter has not gone down |
| ExpenseStore.UpdateRow | source-code/final-project/app/src/main/java/com/droidcon/expenselogger/data/dao/ExpenseDao.kt:31-32 | replaces the row with x's id if present, otherwise changes nothing; other rows are untouched |
| ExpenseStore.DeleteMatching | source-code/final-project/app/src/main/java/com/droidcon/expenselogger/data/dao/ExpenseDao.kt:34-35 | deleting a row deletes by its primary key, so x is no longer stored |
| ExpenseStore.DeleteRow | source-code/final-project/app/src/main/java/com/droidcon/expenselogger/data/dao/ExpenseDao.kt:37-38 | removes exactly that id (a no-op if absent); every other id keeps its row |
| ExpenseStore.ExpenseDao.GetExpenseById | source-code/final-project/app/src/main/java/com/droidcon/expenselogger/data/dao/ExpenseDao.kt:13-14 | the fault, or the lookup on the current rows |
| ExpenseStore.ExpenseDao.GetTotalAmountByDateRange | source-code/final-project/app/src/main/java/com/droidcon/expenselogger/data/dao/ExpenseDao.kt:22-23 | the fault, or the nullable sum over the current rows |
| ExpenseStore.ExpenseDao.GetExpenseCountByDateRange | source-code/final-project/app/src/main/java/com/droidcon/expenselogger/data/dao/ExpenseDao.kt:25-26 | the fault, or the count over the current rows |
| ExpenseStore.ExpenseDao.InsertExpense | source-code/final-project/app/src/main/java/com/droidcon/expenselogger/data/dao/ExpenseDao.kt:28-29 | on a fault or SQLITE_FULL the table is unchanged and the error returned; otherwise the new table and id are InsertRow's; the table stays well formed |
| ExpenseStore.ExpenseDao.UpdateExpense | source-code/final-project/app/src/main/java/com/droidcon/expenselogger/data/dao/ExpenseDao.kt:31-32 | the rows become UpdateRow's result unless the call faults; the counter is kept |
| ExpenseStore.ExpenseDao.DeleteExpense | source-code/final-project/app/src/main/java/com/droidcon/expenselogger/data/dao/ExpenseDao.kt:34-35 | the rows lose the row with x's id unless the call faults; the counter is kept |
| ExpenseStore.ExpenseDao.DeleteExpenseById | source-code/final-project/app/src/main/java/com/droidcon/expenselogger/data/dao/ExpenseDao.kt:37-38 | the rows lose that id unless the call faults; the counter is kept |
| ExpenseStore.ExpenseDao.DeleteAllExpenses | source-code/final-project/app/src/main/java/com/droidcon/expenselogger/data/dao/ExpenseDao.kt:40-41 | the table is empty unless the call faults; the AUTOINCREMENT counter is kept |
| Repository.TotalOrZero | source-code/starter-project/app/src/main/java/com/droidcon/expenselogger/data/repository/ExpenseRepository.kt:24-25 | the DAO sum with null turned into 0: the sum of the range query, 0 when nothing is in range |
| Repository.ExpenseRepository.GetAllExpenses | source-code/starter-project/app/src/main/java/com/droidcon/expenselogger/data/repository/ExpenseRepository.kt:14 | the DAO query unchanged: every stored row, latest first |
| Repository.ExpenseRepository.GetExpensesByDateRange | source-code/starter-project/app/src/main/java/com/droidcon/expenselogger/data/repository/ExpenseRepository.kt:18-19 | the DAO query unchanged: exactly the rows in the inclusive range, latest first |
| Repository.ExpenseRepository.GetExpensesByCategory | source-code/starter-project/app/src/main/java/com/droidcon/expenselogger/data/repository/ExpenseRepository.kt:21-22 | the DAO query unchanged: exactly the rows of that category, latest first |
| Repository.ExpenseRepository.GetExpenseById | source-code/starter-project/app/src/main/java/com/droidcon/expenselogger/data/repository/ExpenseRepository.kt:16 | the DAO lookup unchanged; null exactly when no row has that id |
| Repository.ExpenseRepository.GetTotalAmountByDateRange | source-code/starter-project/app/src/main/java/com/droidcon/expenselogger/data/repository/ExpenseRepository.kt:24-25 | fails exactly when the DAO call fails; otherwise never null: the DAO sum when there is one, 0 for an empty range |
| Repository.ExpenseRepository.GetExpenseCountByDateRange | source-code/starter-project/app/src/main/java/com/droidcon/expenselogger/data/repository/ExpenseRepository.kt:27-28 | the DAO count unchanged, the length of the range query |
| Repository.ExpenseRepository.InsertExpense | source-code/starter-project/app/src/main/java/com/droidcon/expenselogger/data/repository/ExpenseRepository.kt:30 | the DAO insert's effect, returning its id unchanged |
| Repository.ExpenseRepository.UpdateExpense | source-code/starter-project/app/src/main/java/com/droidcon/expenselogger/data/repository/ExpenseRepository.kt:32 | exactly the DAO update's effect on the table |
| Repository.ExpenseRepository.DeleteExpense | source-code/starter-project/app/src/main/java/com/droidcon/expenselogger/data/repository/ExpenseRepository.kt:34 | exactly the DAO delete's effect on the table |
| Repository.ExpenseRepository.DeleteExpenseById | source-code/starter-project/app/src/main/java/com/droidcon/expenselogger/data/repository/ExpenseRepository.kt:36 | exactly the DAO delete-by-id's effect on the table |
| Repository.ExpenseRepository.DeleteAllExpenses | source-code/starter-project/app/src/main/java/com/droidcon/expenselogger/data/repository/ExpenseRepository.kt:38 | exactly the DAO delete-all's effect on the table |
| AddExpense.MessageOf | source-code/final-project/app/src/main/java/com/droidcon/expenselogger/domain/usecase/AddExpenseUseCase.kt:34-35 | the exception's message, or "Unknown error occurred" when it has none |
| AddExpense.Decide | source-code/final-project/app/src/main/java/com/droidcon/expenselogger/domain/usecase/AddExpenseUseCase.kt:19-37 | the resulting table stays well formed; every outcome but Success leaves it unchanged; Success stores the expense (only the id changed) under the returned id, adding that one id; DailyLimitReached only without the paid flag |
| AddExpense.AddExpenseUseCase.Execute | source-code/final-project/app/src/main/java/com/droidcon/expenselogger/domain/usecase/AddExpenseUseCase.kt:19-37 | the step-by-step execute returns Decide's outcome and leaves Decide's table |
| AddExpense.PaidTierInserts | source-code/final-project/app/src/main/java/com/droidcon/expenselogger/domain/usecase/AddExpenseUseCase.kt:22-33 | paid flavour: the outcome does not depend on the clock or on a count failure (no count is taken), and is Success with the insert's id, or Error when the insert fails |
| AddExpense.FreeTierAtLimit | source-code/final-project/app/src/main/java/com/droidcon/expenselogger/domain/usecase/AddExpenseUseCase.kt:27-29 | free flavour with today's count at or above the limit: DailyLimitReached and the table is unchanged (no insert) |
| AddExpense.FreeTierBelowLimit | source-code/final-project/app/src/main/java/com/droidcon/expenselogger/domain/usecase/AddExpenseUseCase.kt:25-33 | free flavour below the limit: Success with the id the insert returned, the table is the insert's, and the expense is stored under that id |
| AddExpense.QuotaIgnoresExpenseDate | source-code/final-project/app/src/main/java/com/droidcon/expenselogger/domain/usecase/AddExpenseUseCase.kt:23-25 | whether the limit is hit does not depend on the expense's own date |
| AddExpense.FailuresBecomeErrors | source-code/final-project/app/src/main/java/com/droidcon/expenselogger/domain/usecase/AddExpenseUseCase.kt:34-35 | a count failure (free flavour) or an insert failure (once admitted) gives Error with the failure's message, or "Unknown error occurred"; the table is unchanged; SQLITE_FULL surfaces as Error("database or disk is full") |
| AddExpense.TodayWindowIsToday | source-code/final-project/app/src/main/java/com/droidcon/expenselogger/domain/usecase/AddExpenseUseCase.kt:23-24 | when both clock readings fall on one local day, the counted window is exactly that day |
| GetMonthlyOverview.FilterSnoc | source-code/final-project/app/src/main/java/com/droidcon/expenselogger/domain/usecase/GetMonthlyOverviewUseCase.kt:29 | filtering a list extended by one row extends the filtered list by that row exactly when it matches |
| GetMonthlyOverview.GroupByCategory | source-code/final-project/app/src/main/java/com/droidcon/expenselogger/domain/usecase/GetMonthlyOverviewUseCase.kt:29 | groupBy's keys are exactly the categories present, and each group is that category's rows in their original order |
| GetMonthlyOverview.SummaryKeys | source-code/final-project/app/src/main/java/com/droidcon/expenselogger/domain/usecase/GetMonthlyOverviewUseCase.kt:29 | the map's key order: each present category exactly once, and a key comes before another exactly when its first row comes before the other's first row |
| GetMonthlyOverview.CategorySummary | source-code/final-project/app/src/main/java/com/droidcon/expenselogger/domain/usecase/GetMonthlyOverviewUseCase.kt:29-30 | keys are exactly the categories present (no zero entries), each value the sum of that category's amounts |
| GetMonthlyOverview.CategoryTotalsAddUp | source-code/final-project/app/src/main/java/com/droidcon/expenselogger/domain/usecase/GetMonthlyOverviewUseCase.kt:28-30 | over distinct categories covering every row, the per-category sums add up to the total |
| GetMonthlyOverview.SummaryAddsUp | source-code/final-project/app/src/main/java/com/droidcon/expenselogger/domain/usecase/GetMonthlyOverviewUseCase.kt:28-30 | the summary's values, in the map's key order, add up to the sum of all amounts |
| GetMonthlyOverview.Summarize | source-code/final-project/app/src/main/java/com/droidcon/expenselogger/domain/usecase/GetMonthlyOverviewUseCase.kt:27-38 | the overview of one emitted list: its rows and their count, the total, the month key, the category summary, and the summary adding up to the total |
| GetMonthlyOverview.MonthQuery | source-code/final-project/app/src/main/java/com/droidcon/expenselogger/domain/usecase/GetMonthlyOverviewUseCase.kt:23-26 | the range query over start and end of the month holds exactly the stored rows of that local month |
| GetMonthlyOverview.RangeOverview | source-code/final-project/app/src/main/java/com/droidcon/expenselogger/domain/usecase/GetMonthlyOverviewUseCase.kt:26-38 | the count equals the DAO count over the range, the total equals the repository's null-to-zero total, and an empty range gives total 0 and an empty summary |
| GetMonthlyOverview.GetMonthlyOverviewUseCase.Execute | source-code/final-project/app/src/main/java/com/droidcon/expenselogger/domain/usecase/GetMonthlyOverviewUseCase.kt:22-40 | the overview is Summarize of the repository's range query over the reference month's bounds; so the listed rows are exactly the stored rows of that month, latest first, the count is their number, the total and category sums are as in Summarize and add up |
| GetMonthlyOverview.GetMonthlyOverviewUseCase.CurrentMonthOverview | source-code/final-project/app/src/main/java/com/droidcon/expenselogger/domain/usecase/GetMonthlyOverviewUseCase.kt:42-44 | the overview of the clock reading's month; every listed date lies in getCurrentMonthStartEnd's range |

## Left out

- Flows and coroutines: a live query is modelled as the list it emits for the current table. Re-emission after each change, subscription and cancellation are not modelled.
- `Double` amounts and their rounding: amounts are whole cents.
- `formatDate` and `formatTime` (DateUtils.kt:59-65): they depend on the locale.
- Real time zones and daylight saving: a fixed offset from UTC replaces the device zone.
- `GregorianCalendar`'s switch to the Julian calendar before October 1582: the calendar is proleptic Gregorian.
- `System.currentTimeMillis()` and the `createdAt`/`updatedAt` defaults (Expense.kt:28-32): clock readings are parameters and the two fields are plain values.
- DateUtils.StartOfDay, DateUtils.EndOfDay, DateUtils.StartOfMonth, DateUtils.EndOfMonth: computed on unbounded integers; the wrap-around of a `Long` within a day of its extremes is not modelled.
- DateUtils.FormatMonth: the key is always printed with ASCII digits and the Gregorian year. The month format (DateUtils.kt:9) and the calendar instances both use the device's default locale, so a locale with its own digits (Arabic, Persian) gives other digits and a Thai default locale gives the Buddhist year; the model fixes one locale that does neither, and `DateUtils.MonthKeyShape` holds only there.
- DateUtils.FormatMonth: only the year of era is printed (year 0 prints as 1), without an era marker, as the `yyyy` pattern does; for years of era above 9999 the key is longer than 7 characters.
- ExpenseStore.Select: the order among rows with equal dates is a choice of the model (ascending id), because SQL leaves it open; the contracts promise only the date order.
- GetMonthlyOverview.CategorySummary: a Dafny map has no order; the LinkedHashMap key order is given separately by `SummaryKeys`, whose contract fixes it as the order of first occurrence.
- AddExpense.AddExpenseUseCase.Execute: the count is an unbounded integer; Room's `Int` result for more than Integer.MAX_VALUE rows is not modelled.
- AddExpense.TodayWindowIsToday: the two clock readings can fall on different days if midnight passes between them. The window then spans both days; the lemma covers only the same-day case.
- Concurrency: the check-then-insert in the add-expense use case is not atomic against a concurrent insert. Only one task is modelled.
- The database singleton, dependency injection, view models and the Compose UI, with its sort by amount and its input parsing: wiring and presentation outside the core.
- Exceptions other than the injected store faults, and the text Android adds to SQLite error messages: a fault carries the message as given.
- Build configuration beyond the two flavour flags.

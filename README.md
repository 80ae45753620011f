# Budget ledger and waterfall income distributor

A Dafny model of `classes.py` of a personal-finance tracker. It covers the two
managers that share one SQLite database.

- `ExpenseManager` keeps the `expenses` table. That table has an AUTOINCREMENT
  `id`, a timestamp, a category, a description and an amount. The manager also
  computes the dashboard aggregations over a loaded list of expenses.
- `BudgetManager` keeps the `budgets` table, which maps each category to its
  current balance. It distributes income over the buckets with a "waterfall":
  - Weights are renormalised over the categories that are still active. A
    category is active when its weight is positive and it is uncapped or below
    its cap.
  - Every active category gets its share, clipped to the space left below its
    cap.
  - Whatever a capped bucket could not take stays in the remainder and is
    distributed in the next round.

Files:

- `wrappers.dfy`: the `Option` and `Result` datatypes.
- `dicts.dfy`: Python dictionaries as Dafny maps.
  - `Get` is `dict.get(k, 0)`.
  - `SumOver` is a sum in key order.
  - `Distinct` holds the key order of a dictionary.
- `store.dfy`: the shared database as a class `Database`. Its fields are:
  - two table-exists flags;
  - the expense rows, as inserted (a scan returns them by id, `SortById`);
  - the AUTOINCREMENT sequence value (`lastId`);
  - the budget balances.

  It also holds `InsertAll`, the semantics of a bulk `INSERT`:
  - a row without an id gets `lastId + 1`;
  - a repeated id fails;
  - a failure rolls back the whole transaction.
- `waterfall.dfy`: the allocation algorithm as pure functions, with lemmas.
  - `Step` is one pass of the `while` loop of `allocate_income`.
  - `Rounds`/`After` is the whole loop.
  - `Allocation` is its result from the all-zero allocations.
  - `Distribute` is the inner `for cat in active_cats` loop.
- `budgets.dfy`: `BudgetManager` as a class over the database. Its
  `ComputeAllocations`, `Round`, `ActiveCategories`, `ActiveWeight` and
  `DistributeRound` are the loop of `allocate_income`, its body and its inner
  loops. Each is proved equal to the corresponding function of `waterfall.dfy`.
- `expenses.dfy`: `ExpenseManager` as a class over the database. It also holds:
  - the aggregations `calculate_metrics` and `get_expenses_by_category`, as
    functions;
  - `get_category_matrix`, as two loops.

Amounts are `real`, so the 0.01 thresholds are exact constants and there is no
rounding. A cap of `0`, or no cap entry at all, means uncapped. This stands for
the source's `float('inf')` space. Termination of the allocation loop is proved
with the measure `(remaining * 100).Floor`. Every round that does not end the
loop gives out at least 0.01; that is the stall guard at `classes.py:166`.

Behaviour the source leaves implicit:

- The source validates no amount. An income of at most 0.01, zero or negative
  included, enters no round and credits nothing. A negative expense amount is
  recorded and debited like any other.
- `SELECT * FROM expenses` on a table whose `id` is the `INTEGER PRIMARY KEY`
  scans the rows by ascending id. So `load_data` returns them in id order, not
  in the order they were saved: a bulk save of a frame sorted newest first
  loads back oldest first.
- The stall guard is also reachable with exact arithmetic, not only through
  floating-point noise. `StallGuardExample` is such a case: a nearly full
  capped bucket next to an uncapped bucket of tiny weight. The first round gives
  out less than 0.01, so the loop stops with most of the income unallocated.
  That income is not credited anywhere, although an uncapped bucket exists.

## Model

| member | source | states |
|---|---|---|
| Waterfall.Step | classes.py:127-166 | A round after which the loop goes on has given out at least 0.01 (the stall guard). This is what makes the run terminate. |
| Waterfall.ActiveInMember | classes.py:129-138 | A category is in the active list exactly when it is configured, its weight is positive, and it is uncapped or strictly below its cap. |
| Waterfall.ActiveInDistinct | classes.py:129-138 | The active list names each category at most once. |
| Waterfall.ActiveWeightPositive | classes.py:140-144 | The active weight sum is never negative, and it is positive whenever the active list is not empty. |
| Waterfall.AddNonnegative | classes.py:150-159 | An active category receives at least 0 and at most its renormalised share. `min(share, space)` never adds a negative amount. |
| Waterfall.SumSharesIs | classes.py:150-151 | The shares of a list of categories add up to `remaining * (their weight / total)`. |
| Waterfall.SumAddsBounds | classes.py:148-161 | A round gives the active categories between 0 and the sum of their shares. |
| Waterfall.SumAddsUncapped | classes.py:157-159 | Over uncapped categories a round gives exactly the sum of the shares. |
| Waterfall.RoundGivesAtMostRemaining | classes.py:143-163 | What a round distributes lies between 0 and the remaining income, so `remaining_income` never goes negative. |
| Waterfall.DistributeAt | classes.py:148-161 | The in-order distribution loop credits each listed category its clipped share. That share is computed against the allocations the round started from. No other category changes, and the loop gives out the sum of those amounts in total. |
| Waterfall.RoundCredits | classes.py:127-166 | One step keeps the key set. With no active category it stops and changes nothing. Otherwise every active category gains its clipped share, and the step is the last one exactly when it gave out less than 0.01. |
| Waterfall.UncappedRoundGivesAll | classes.py:143-161 | When every active category is uncapped, a round distributes all that remains. |
| Waterfall.CreditsSound | classes.py:154-160 | A round keeps every allocation non-negative. It keeps the allocation of a category with weight at most 0 at 0. It never pushes a capped category past its cap. |
| Waterfall.CreditsTotal | classes.py:160-161 | A round raises the total of the allocations by exactly what it distributed. |
| Waterfall.RoundsKeys | classes.py:123-160 | The loop never adds or drops a key of the allocation dictionary. |
| Waterfall.AllocationKeys | classes.py:123 | The result has exactly one entry per key of the weight map. |
| Waterfall.RoundsSound | classes.py:127-166 | The whole loop keeps the allocation bounds. |
| Waterfall.RoundsTotal | classes.py:147-163 | The whole loop adds between 0 and the remaining income to the total of the allocations. |
| Waterfall.AllocationBounds | classes.py:120-166 | Every allocation is at least 0. A category whose weight is at most 0 gets 0. A capped category either gets nothing or ends at or below its cap, and one that started at or below its cap ends at or below it. The allocations add up to at least 0, and to at most the income when the income is not negative. An income of at most 0.01 allocates nothing. |
| Waterfall.AllocationExactWhenUncapped | classes.py:127-163 | With some positive weight and every positively weighted category uncapped, an income above 0.01 is allocated in full. |
| Waterfall.AllocationExactWhenRoomLeft | classes.py:127-163 | When every capped active category's first-round share fits in the space below its cap, an income above 0.01 is allocated in full. |
| Waterfall.SumAddsEqShares | classes.py:148-161 | Where every listed category takes its whole share, a round gives out exactly the sum of the shares. |
| Waterfall.OverflowExample | classes.py:127-163 | Take A with weight 0.5, cap 100 and balance 90, and B with weight 0.5, uncapped and balance 0. Allocating 100 gives A 10 and B 90: A's overflow goes on to B. |
| Waterfall.StallGuardExample | classes.py:163-166 | The stall guard can stop the loop with most of the income unallocated even though an uncapped bucket exists. |
| Budgets.BudgetManager.constructor | classes.py:91-95 | Construction runs `init_db` on the given database and policy. |
| Budgets.BudgetManager.InitDb | classes.py:100-113 | The budgets table exists afterwards. Balances become `WithBuckets(old balances, weight keys)`. The expense table is untouched. |
| Budgets.WithBucketsSpec | classes.py:109-113 | After INSERT OR IGNORE, every configured category has a bucket and new buckets start at 0. Existing balances are kept, nothing else appears, and a second run changes nothing. |
| Budgets.BudgetManager.GetBalances | classes.py:115-118 | Returns the stored balance of every bucket. |
| Budgets.BudgetManager.ComputeAllocations | classes.py:122-166 | The `while` loop returns `Allocation(policy, snapshot, income)`, the function the lemmas of `Waterfall` are about. |
| Budgets.BudgetManager.Round | classes.py:128-166 | One pass of the loop body equals `Step`, including its three `break`s, and keeps the key set. |
| Budgets.BudgetManager.ActiveCategories | classes.py:129-138 | The first inner loop builds exactly the active list `ActiveIn`. |
| Budgets.BudgetManager.ActiveWeight | classes.py:143 | The generator sum equals `WeightSum` over the active list. |
| Budgets.BudgetManager.DistributeRound | classes.py:147-161 | The distribution loop yields exactly the new allocations and the total given out of `Distribute`. |
| Budgets.BudgetManager.AllocateIncome | classes.py:120-178 | Returns the allocation for the balance snapshot. Each bucket's balance rises by its allocation when that is positive, and by nothing otherwise. No bucket is added or dropped, and the expenses table is untouched. |
| Budgets.BudgetManager.CreditAll | classes.py:169-176 | The write loop adds each positive allocation to its bucket. It leaves other buckets alone and ignores categories without a bucket. |
| Budgets.CreditRespectsPolicy | classes.py:169-176 | A credit is never negative. A bucket whose weight is at most 0 gets no credit. A capped bucket that starts at or below its cap stays at or below it. |
| Store.InsertAllFailureSticks | classes.py:42-44 | Once an insert of the bulk save fails, the whole save fails with that error. |
| Store.InsertAllShape | classes.py:40-44 | A successful bulk insert keeps the ids unique and at most the sequence value. It never lowers the sequence value. It appends one stored row per input row, in order, each carrying that row's columns. Rows without an id get ids above every id used before. |
| Store.InsertByIdCount | classes.py:33 | Placing a row into the id-ordered rows keeps every other row and adds just that one. |
| Store.InsertByIdAscending | classes.py:33 | A row with an unused id placed into rows in ascending id order keeps them ascending. |
| Store.SortByIdSpec | classes.py:33 | The id-order scan returns a permutation of the stored rows, and with unique primary keys their ids strictly ascend. |
| Store.SortAscending | classes.py:33 | Rows already in ascending id order are scanned back unchanged. |
| Store.SortedValid | classes.py:29-34 | The loaded rows, with the sequence value, still form a valid table: unique ids, none above the sequence value. |
| Store.SaveLoadedRoundTrip | classes.py:29-44 | Saving back exactly the loaded rows, ids included, rebuilds the loaded table with the same sequence value, and loading again returns the same rows. |
| Store.SaveRowsBack | classes.py:40-44 | Saving a valid table's rows with their own ids rebuilds that table. |
| Store.SavedIdsDistinct | classes.py:40-44 | A bulk save that succeeds carried pairwise different explicit ids. |
| Store.RepeatedIdRejected | classes.py:40-44 | A bulk save whose rows repeat an id fails. |
| Expenses.ExpenseManager.constructor | classes.py:6-8 | Construction runs `init_db`; the rows, the sequence value and the budgets are unchanged. |
| Expenses.ExpenseManager.InitDb | classes.py:13-27 | `CREATE TABLE IF NOT EXISTS` creates the expenses table and leaves existing rows and everything else unchanged. |
| Expenses.ExpenseManager.LoadData | classes.py:29-34 | Returns every stored row exactly once (a permutation of the table), in strictly ascending id order. |
| Expenses.ExpenseManager.SaveBulkData | classes.py:40-44 | On success the table holds exactly the inserted rows and the new sequence value. On a repeated id it reports the error and nothing changes. Budgets are untouched either way. |
| Expenses.ExpenseManager.AddExpense | classes.py:46-60 | Appends exactly one row with the next id, which is above every earlier id. It debits the amount from the category's bucket if there is one, and no other bucket changes. It returns the reloaded rows in id order. Without a budgets table it fails and changes nothing. |
| Expenses.CalculateMetrics | classes.py:63-66 | The result is (total spent, number of rows), and the empty list's (0, 0) is the same formula. |
| Expenses.MetricsAfterAdd | classes.py:63-66 | One more expense adds its amount to the total and 1 to the count. |
| Expenses.ExpensesByCategory | classes.py:69-72 | One entry per category that occurs, holding the amount spent in it. A category that does not occur reads as 0. |
| Expenses.CategorySumOutside | classes.py:69-72 | A category that occurs in no row has nothing spent in it. |
| Expenses.ByCategoryAfterAdd | classes.py:69-72 | One more expense adds its amount to its own category only, and adds that category as a key. |
| Expenses.ByCategoryTotal | classes.py:63-72 | Over a duplicate-free list of categories covering every row, the per-category sums add up to the total of `calculate_metrics`. |
| Expenses.AmountsOfSum | classes.py:80 | The amounts listed for a category add up to what was spent in it. |
| Expenses.AmountsOfEmpty | classes.py:80 | A category has amounts listed exactly when it occurs in the rows. |
| Expenses.CategoryMatrix | classes.py:75-87 | The columns are the requested categories in first-occurrence order. Each is the category's amounts in row order, padded with `None` to the longest column. |
| Expenses.GatherColumns | classes.py:76-82 | The first loop collects each requested category's amounts and computes `max_len`. |
| Expenses.PadColumns | classes.py:84-85 | The second loop pads every column with `None` up to `max_len`. |
| Expenses.ColumnsKeys | classes.py:79-81 | Each requested category becomes exactly one column. |
| Expenses.LongestIsMax | classes.py:77-82 | `max_len` is at least every column's length and equal to some column's length. |
| Expenses.MatrixShape | classes.py:75-87 | Every column has length `max_len`. It starts with the category's amounts in row order and holds `None` after them. Its amounts add up to what was spent in the category. |

## Left out

- SQLite, SQL text, connections and pandas DataFrames are replaced by the in-memory fields of `Database`. Each `with conn:` transaction becomes one method that either completes or changes nothing.
- The exception fallback of `load_data` (classes.py:35-36) is not modelled, because it handles I/O failure. `LoadData` always returns the stored rows.
- `datetime.now()` (classes.py:52) is the `now` parameter of `AddExpense`.
- `Expenses.ExpensesByCategory`: the result is a map, so the sorted index order of `groupby` is not modelled.
- `Expenses.CategoryMatrix`: it returns the column order and the columns, not a DataFrame. A requested category that is repeated overwrites its own column with the same amounts, so this is not observable.
- `Expenses.ExpenseManager.AddExpense`: SQLite's 64-bit rowid limit is not modelled, because ids are unbounded integers.
- `Store.InsertAllShape`: a DataFrame whose columns differ from the table's is not modelled. Rows are typed records.
- Floating-point rounding is not modelled, because amounts are exact `real`s. The 0.01 thresholds are constants.
- `Budgets.BudgetManager.AllocateIncome`: the class invariant guarantees a bucket for every configured category. Crediting a category without a bucket is modelled as a no-op and shown in `CreditAll`.
- The Streamlit front end and the configured weight and cap tables are not part of this model. They are presentation and constant data.

# Hospital financial management: transactions, validation and dashboard

A Dafny model of the core of a Laravel hospital finance application
(RSUD financial management). Three pieces are modelled over an in-memory
record store:

- **Transaction controller.** The reference number generator
  `{prefix}-{YYYYMMDD}-{nnnn}` and the `store` action that uses it. The
  locked-status guards of `edit`, `update` and `destroy`. The `index`
  listing, with its search, type, status and date filters, its
  newest-first order and its pages of 15. The `transactions` table is a
  class `TransactionStore` holding the rows and the auto-increment counter.
  Its methods change the rows in place.
- **Store request validation.** `rules()` and `messages()` of the store
  request. The model lists the failed rules of a request in declaration
  order and gives each failure its message.
- **Dashboard.** The summary figures: cash balance, the month's income and
  expense, the year's budget and realization, and the utilization. Also the
  twelve-month trend loop, the ten most recent transactions, and the
  budget-versus-realization table of the level-1 accounts.

Conventions:

- Money is an integer number of cents, because the amount columns are
  `decimal(15,2)`.
- A date is a (year, month, day) triple.
- Today's date, the current year and month, the current user's id and the
  creation timestamp are parameters.
- The sets of existing account and unit ids (for the `exists` rules) are
  parameters.

The PHP functions the generator relies on are written out in `decimal.dfy`:

- `(int)` casts as `Intval`: leading whitespace, an optional sign, then the
  longest run of digits.
- `substr($s, -4)` as `Last4`.
- `str_pad(..., 4, '0', STR_PAD_LEFT)` as `PadLeftZeros`. It never
  truncates.
- `(string)` of an integer as `IntToString`.

SQL `LIKE` with `%` and `_` and ASCII case folding is `Text.Like`.

The listing reproduces the query the controller actually builds. The
search adds `number LIKE ? OR description LIKE ?` without grouping, and the
other filters are appended with AND. Because AND binds tighter than OR, a
transaction whose number matches the search is listed whatever the type,
status and date filters say (`TransactionListing.NumberMatchBypassesFilters`).

Each module sits in its own file:

| module | file |
|---|---|
| `Wrappers` | `wrappers.dfy` |
| `Calendar` | `calendar.dfy` |
| `Decimal` | `decimal.dfy` |
| `Records` | `records.dfy` |
| `TransactionNumbers` | `numbering.dfy` |
| `Text` | `text.dfy` |
| `Ordering` | `ordering.dfy` |
| `TransactionListing` | `listing.dfy` |
| `StoreTransactionRequest` | `validation.dfy` |
| `TransactionController` | `transactions.dfy` |
| `DashboardController` | `dashboard.dfy` |

## Model

| member | source | states |
|---|---|---|
| TransactionNumbers.Prefix | app/Http/Controllers/TransactionController.php:153-159 | The prefix has three letters. It is `TRX` exactly when the name is none of the four transaction types. |
| TransactionNumbers.PrefixTable | app/Http/Controllers/TransactionController.php:153-159 | income→REV, expense→EXP, return→RET, correction→COR, anything else→TRX. |
| TransactionNumbers.Ymd | app/Http/Controllers/TransactionController.php:161 | `date('Ymd')` of a valid date is eight digits. |
| TransactionNumbers.BucketHead | app/Http/Controllers/TransactionController.php:161-162 | The bucket `{prefix}-{date}-` has 13 characters. |
| TransactionNumbers.NextNumber | app/Http/Controllers/TransactionController.php:166-173 | The generated number has at least 17 characters and starts with the bucket head. |
| TransactionNumbers.Compose | app/Http/Controllers/TransactionController.php:173 | The number is the head followed by the counter zero-padded to four digits. Definition only; `RoundTrip` and `PaddedInjective` state its properties. |
| TransactionNumbers.NextSuffix | app/Http/Controllers/TransactionController.php:166-171 | The new counter is `(int)` of the latest number's last four characters plus one, or 1 when the bucket is empty. Definition only; `NextAfterFourDigits` and `SuffixWrapsAfter9999` state what it yields. |
| TransactionNumbers.EmptyBucketStartsAtOne | app/Http/Controllers/TransactionController.php:166-173 | An empty bucket yields the head followed by `0001`. |
| TransactionNumbers.RoundTrip | app/Http/Controllers/TransactionController.php:167-173 | For 0 ≤ k ≤ 9999, the padded suffix is exactly the last four characters, and `(int)` of them gives k back. |
| TransactionNumbers.NextAfterFourDigits | app/Http/Controllers/TransactionController.php:167-173 | If the latest number ends in four digits with value n < 9999, the result has 17 characters, starts with the head, and its suffix is n+1 padded to four digits. |
| TransactionNumbers.ExampleExpenseNumbers | app/Http/Controllers/TransactionController.php:151-174 | On 2024-03-15 an empty expense bucket yields `EXP-20240315-0001`, and a bucket whose latest number is `EXP-20240315-0001` yields `EXP-20240315-0002`. |
| TransactionNumbers.SuffixWrapsAfter9999 | app/Http/Controllers/TransactionController.php:167-173 | After suffix 9999 the generator produces the 5-digit suffix `10000`. After that it produces `0001` again, the number an empty bucket starts with. |
| TransactionNumbers.SuffixAfter10000 | app/Http/Controllers/TransactionController.php:166-171 | Whatever the head, a latest number ending in `10000` gives the new counter 1. |
| TransactionNumbers.FirstInBucket | app/Http/Controllers/TransactionController.php:166-173 | With no latest number, the generated number is the head followed by `0001`. |
| TransactionNumbers.SecondInBucket | app/Http/Controllers/TransactionController.php:166-173 | With the head followed by `0001` as the latest number, the generated number is the head followed by `0002`. |
| TransactionNumbers.NextSuffixFixed | app/Http/Controllers/TransactionController.php:166-171 | Corrected counter: the whole suffix after the head is cast, plus one; 1 when the bucket is empty. Definition only; `NextNumberFixed` and `NumberIsFreshFixed` state what it yields. |
| TransactionNumbers.FixedContinuesPast9999 | app/Http/Controllers/TransactionController.php:167-173 | The corrected reading (the whole text after the head) continues from k to k+1 for every k. |
| TransactionNumbers.RoundTripFixed | app/Http/Controllers/TransactionController.php:167-173 | The corrected reading of a composed number gives back its counter, with no upper bound. |
| TransactionNumbers.NextNumberFixed | app/Http/Controllers/TransactionController.php:166-173 | The corrected generator's number has at least 17 characters and starts with the bucket head. |
| Decimal.IntvalOfPadded | app/Http/Controllers/TransactionController.php:167-173 | `(int)` of a zero-padded decimal string is the number itself. |
| Decimal.PaddedWidth4 | app/Http/Controllers/TransactionController.php:173 | `str_pad` to four gives exactly four characters up to 9999 and does not truncate beyond. |
| Decimal.PaddedInjective | app/Http/Controllers/TransactionController.php:173 | Distinct counters give distinct padded suffixes. |
| Decimal.PaddedToWidth | app/Http/Controllers/TransactionController.php:173 | A counter below 10^w padded to width w is exactly w digits. |
| Decimal.PadLeftZeros | app/Http/Controllers/TransactionController.php:173 | `str_pad` on the left gives the width or the original length, whichever is larger, and ends with the original string. |
| Decimal.IntvalOfDigits | app/Http/Controllers/TransactionController.php:167 | On a string of digits the `(int)` cast gives the number the digits denote. |
| Decimal.Last4 | app/Http/Controllers/TransactionController.php:167 | `substr($s, -4)` is the last four characters, or the whole of a shorter string. |
| Decimal.Intval | app/Http/Controllers/TransactionController.php:167 | PHP's `(int)` cast of a string: leading whitespace, an optional sign, then the longest run of digits, 0 when there are none. Definition only; `IntvalOfDigits` and `IntvalOfPadded` state its properties. |
| Decimal.IntToString | app/Http/Controllers/TransactionController.php:173 | PHP's `(string)` of an integer: its decimal digits without leading zeros, after a minus sign when negative. Definition only; `IntvalOfPadded` and `PaddedInjective` state that it is read back exactly. |
| Text.WordThenPercent | app/Http/Controllers/TransactionController.php:162 | For a wildcard-free head, `LIKE 'head%'` holds exactly when the string starts with the head up to case. |
| Text.ContainsPattern | app/Http/Controllers/TransactionController.php:24-25 | For a wildcard-free word, `LIKE '%word%'` holds exactly when the word occurs in the string up to case. |
| Text.Like | app/Http/Controllers/TransactionController.php:24-25 | SQL `LIKE` under a case-insensitive collation: `%` matches any run, `_` one character. Definition only; `WordThenPercent` and `ContainsPattern` state its meaning for the patterns the controller builds. |
| Text.IsBlank | app/Http/Requests/StoreTransactionRequest.php:25-32 | A value that is empty once trimmed, which `filled()` and `required` reject. Definition only; `DatesRequired` and `TypeNamesNotBlank` use it. |
| Text.IsTrimmed | app/Http/Requests/StoreTransactionRequest.php:24-34 | The six characters PHP's trim removes, which decide blankness for `filled()` and `required`. Definition only; `IsBlank` is built from it. |
| TransactionListing.BuildQuery | app/Http/Controllers/TransactionController.php:22-42 | The where-list built step by step selects exactly the transactions of the closed form `Listed`. |
| TransactionListing.BuiltQueryMeaning | app/Http/Controllers/TransactionController.php:22-42 | The where-list, read as search clauses followed by the AND-ed filter clauses, selects exactly the rows of `Listed`. |
| TransactionListing.NarrowingWheres | app/Http/Controllers/TransactionController.php:28-42 | The type, status and date clauses are all AND-connected, and together they hold exactly when the row passes the filled filters. |
| TransactionListing.QueryMeaning | app/Http/Controllers/TransactionController.php:22-42 | SQL evaluation of `number LIKE OR description LIKE AND type AND status AND from AND to` equals `Listed`. |
| TransactionListing.NumberMatchBypassesFilters | app/Http/Controllers/TransactionController.php:23-42 | A transaction whose number matches the search is listed, whatever the other filters are. |
| TransactionListing.NoSearchExactFilters | app/Http/Controllers/TransactionController.php:28-42 | Without a search, a transaction is listed exactly when it matches the filled type and status and lies in the inclusive date range. |
| TransactionListing.SearchIsSubstring | app/Http/Controllers/TransactionController.php:23-26 | With a wildcard-free search, a transaction is listed exactly when the term is in its number, or in its description and it passes the other filters. |
| TransactionListing.Select | app/Http/Controllers/TransactionController.php:44 | The query result holds exactly the rows the where-list accepts. |
| TransactionListing.SelectMatching | app/Http/Controllers/TransactionController.php:20-44 | The rows the built query selects are the matching rows, in table order. |
| TransactionListing.Matching | app/Http/Controllers/TransactionController.php:20-44 | A row is among the matching rows exactly when it is in the table and passes the listing condition. |
| TransactionListing.Listed | app/Http/Controllers/TransactionController.php:22-42 | The closed form of the listing condition: a number match, or a description match that also passes the filled filters. Definition only; `QueryMeaning` and `BuildQuery` prove the built query equal to it. |
| TransactionListing.Filled | app/Http/Controllers/TransactionController.php:23-33 | `filled()`: the parameter is present and not blank. Definition only; `BuildQuery` and `NoSearchExactFilters` use it. |
| TransactionListing.SearchPattern | app/Http/Controllers/TransactionController.php:23-26 | The search text wrapped in `%` on both sides, for `LIKE`. Definition only; `BuiltQueryMeaning` states what it matches. |
| TransactionListing.Narrowing | app/Http/Controllers/TransactionController.php:28-42 | The type, status and date-range filters a row must pass. Definition only; `NarrowingWheres` and `BuiltQueryMeaning` state its place in the query. |
| TransactionListing.SearchWheres | app/Http/Controllers/TransactionController.php:23-26 | A filled search adds the number clause with AND and the description clause with OR; otherwise nothing. Definition only; `BuiltQueryMeaning` states what it selects. |
| TransactionListing.TypeWheres | app/Http/Controllers/TransactionController.php:28-30 | A filled type adds one AND clause on the type. Definition only; `NarrowingWheres` states its meaning. |
| TransactionListing.StatusWheres | app/Http/Controllers/TransactionController.php:32-34 | A filled status adds one AND clause on the status. Definition only; `NarrowingWheres` states its meaning. |
| TransactionListing.FromWheres | app/Http/Controllers/TransactionController.php:36-38 | A start date adds one AND clause: transaction date on or after it. Definition only; `NarrowingWheres` states its meaning. |
| TransactionListing.ToWheres | app/Http/Controllers/TransactionController.php:40-42 | An end date adds one AND clause: transaction date on or before it. Definition only; `NarrowingWheres` states its meaning. |
| Ordering.SortNewestFirst | app/Http/Controllers/TransactionController.php:44 | `latest()` gives a permutation of the rows ordered by creation time, newest first. |
| Ordering.NewestFirst | app/Http/Controllers/TransactionController.php:44 | The order `latest()` gives: creation time never increases along the list. Definition only; `SortNewestFirst` establishes it and `RecentOf` accepts any order that satisfies it. |
| Ordering.PageOf | app/Http/Controllers/TransactionController.php:44 | A page holds at most `perPage` rows: the rows at offset (page−1)·perPage onward, with a page below 1 read as 1. |
| Records.TxTypeOf | app/Http/Requests/StoreTransactionRequest.php:30 | A type name parses exactly when it is the name of one of the four types. |
| Records.ApprovedTx | app/Models/Transaction.php:132-135 | The `approved()` scope of transactions: status approved. Definition only; every dashboard sum counts only such rows (`ApprovedSumBounds`, `CashBalance`). |
| Records.ApprovedBudget | app/Models/Budget.php:122-125 | The `approved()` scope of budgets: status approved. Definition only; `BudgetSum` and `TotalBudgetAppend` count only such budgets. |
| Records.CanModify | app/Http/Controllers/TransactionController.php:98-101 | The guard of edit, update and destroy: a row may be changed unless it is locked. Definition only; `Edit`, `Update` and `Destroy` state the refusals. |
| Calendar.DaysInMonth | app/Http/Requests/StoreTransactionRequest.php:25-27 | A month has 28 to 31 days, which bounds the days a `date` rule accepts. |
| Calendar.ValidDate | app/Http/Requests/StoreTransactionRequest.php:25-27 | The `date` rule: a year 1..9999, a month 1..12 and a day within the month. Definition only; `Validated` ensures it of every accepted date. |
| Calendar.DateLe | app/Http/Controllers/TransactionController.php:36-42 | The order SQL compares DATE values in: year, then month, then day. Definition only; `Narrowing` uses it for the date range. |
| TransactionController.LatestInBucket | app/Http/Controllers/TransactionController.php:162-164 | The result is a row of the bucket with the largest id, or nothing when no row lies in the bucket. |
| TransactionController.InBucket | app/Http/Controllers/TransactionController.php:162 | The lookup's `LIKE 'head%'` test on a number. Definition only; `InBucketIff` states its meaning for a generated head. |
| TransactionController.LastNumber | app/Http/Controllers/TransactionController.php:162-167 | The number of the bucket's latest row by id, or none. Definition only; `LatestInBucket` states which row it is. |
| TransactionController.Counter | app/Http/Controllers/TransactionController.php:167 | The counter the generator reads off a number: the integer cast of its last four characters. Definition only; `RoundTrip` and `LatestHasMaxCounter` state its properties. |
| TransactionController.LatestAfterAppend | app/Http/Controllers/TransactionController.php:162-164 | A row appended with an id above every existing id, whose number lies in the bucket, becomes the bucket's latest row. |
| TransactionController.HeadNoWildcards | app/Http/Controllers/TransactionController.php:162 | A bucket head contains no LIKE wildcard. |
| TransactionController.InBucketIff | app/Http/Controllers/TransactionController.php:162 | A number is in the bucket exactly when its first 13 characters equal the head up to case. |
| TransactionController.LatestHasMaxCounter | app/Http/Controllers/TransactionController.php:162-167 | While counters increase with ids in each bucket, the latest row by id carries the largest counter of its bucket. |
| TransactionController.FreshInBucket | app/Http/Controllers/TransactionController.php:162-173 | A number in the bucket whose counter exceeds the latest row's counter exceeds every counter in the bucket, so no row has it. |
| TransactionController.NumberIsFresh | app/Http/Controllers/TransactionController.php:162-173 | If counters increase with ids and the bucket's latest counter is below 9999, the generated number has 17 characters and is in no row. |
| TransactionController.FreshAt | app/Http/Controllers/TransactionController.php:162-173 | For any wildcard-free 13-character head, the composed next number is 17 characters long, untaken and tops its bucket's counters. |
| TransactionController.AppendKeepsCounters | app/Http/Controllers/TransactionController.php:72-75 | Appending a row whose counter tops its bucket keeps the counters increasing with ids. |
| TransactionController.StoreKeepsCounters | app/Http/Controllers/TransactionController.php:72-75 | Under the same bound, storing the generated number as the newest row keeps the counters increasing with ids. |
| TransactionController.FirstTwoOfBucket | app/Http/Controllers/TransactionController.php:151-174 | On a table with no row in the bucket, the first generated number ends in `0001`. Once that row is appended with the next id, the next generated number ends in `0002`: sequential creation leaves no gap. |
| TransactionController.ExampleSequentialExpenses | app/Http/Controllers/TransactionController.php:69-75 | Two expense stores on 2024-03-15, one after the other, get `EXP-20240315-0001` and then `EXP-20240315-0002`. |
| TransactionController.NumberIsFreshFixed | app/Http/Controllers/TransactionController.php:162-173 | The corrected generator's number is in no row and keeps the counters ordered, with no bound on the counter. |
| TransactionController.CounterFixed | app/Http/Controllers/TransactionController.php:166-171 | Corrected counter read: the cast of the whole suffix after the head. Definition only; `NumberIsFreshFixed` states that it keeps counters ordered. |
| TransactionController.NumberFor | app/Http/Controllers/TransactionController.php:151-174 | The generated number against a table has at least 17 characters and starts with the bucket head, and it is the head followed by `0001` when the bucket is empty. |
| TransactionController.NumberForFixed | app/Http/Controllers/TransactionController.php:151-174 | The corrected generator's number against a table has at least 17 characters and starts with the bucket head. |
| TransactionController.Created | app/Http/Controllers/TransactionController.php:71-75 | The row `Transaction::create` inserts: the validated data, the generated number and the creator, with status draft. Definition only; `TransactionStore.Store` states the insert. |
| TransactionController.Updated | app/Http/Controllers/TransactionController.php:123 | Rewriting a row's data keeps its id, number, status, creator, approver and creation time. |
| TransactionController.FreshFixedAt | app/Http/Controllers/TransactionController.php:162-173 | For any wildcard-free head, the corrected number is untaken and appending it keeps the corrected counters ordered. |
| TransactionController.FreshFixedNumber | app/Http/Controllers/TransactionController.php:162-173 | The corrected number tops every corrected counter of its bucket, so no row holds it. |
| TransactionController.AppendPreservesOrder | database/migrations/2024_01_01_000003_create_transactions_table.php:15-16 | Inserting with the next auto-increment id and an untaken number keeps ids increasing and numbers unique. |
| TransactionController.NumbersUnique | database/migrations/2024_01_01_000003_create_transactions_table.php:16 | The `unique` index on `transaction_number`: no two rows share a number. Definition only; `AppendPreservesOrder` and `TransactionStore.Valid` keep it. |
| TransactionController.IdsIncreasing | database/migrations/2024_01_01_000003_create_transactions_table.php:15 | Auto-increment ids: rows in insertion order have increasing ids. Definition only; `AppendPreservesOrder` keeps it. |
| TransactionController.TransactionStore.Valid | database/migrations/2024_01_01_000003_create_transactions_table.php:15-16 | The table invariant: the next id is above every id, ids increase and numbers are unique. Definition only; every state-changing method of the class keeps it. |
| TransactionController.ReplacePreservesOrder | app/Http/Controllers/TransactionController.php:123 | Rewriting a row's data keeps ids ordered, numbers unique and counters ordered. |
| TransactionController.RemovePreservesOrder | app/Http/Controllers/TransactionController.php:139 | Deleting a row keeps ids ordered, numbers unique and counters ordered. No row appears, and every other row stays. |
| TransactionController.Find | app/Http/Controllers/TransactionController.php:96 | Route binding either finds the position of a row with the id or reports that no row has it. |
| TransactionController.TransactionStore.GenerateTransactionNumber | app/Http/Controllers/TransactionController.php:151-174 | The imperative generator computes the bucket's next number. Under ordered counters below 9999 that number is 17 characters long and is not yet taken. |
| TransactionController.TransactionStore.GenerateTransactionNumberFixed | app/Http/Controllers/TransactionController.php:151-174 | The corrected generator reads the whole suffix. Under ordered counters its number is never taken, whatever the count. |
| TransactionController.TransactionStore.constructor | database/migrations/2024_01_01_000003_create_transactions_table.php:15-16 | An empty table, whose auto-increment counter starts at 1. |
| TransactionController.TransactionStore.Store | app/Http/Controllers/TransactionController.php:69-79 | An invalid request changes nothing. A duplicate number is refused by the unique index and changes nothing. Otherwise a draft by the user is appended with the next id and the generated number. Under ordered counters below 9999 the store always succeeds and keeps the counters ordered. |
| TransactionController.TransactionStore.Create | app/Http/Controllers/TransactionController.php:75 | The insert appends the row with the next auto-increment id. Ids stay increasing and numbers stay unique. |
| TransactionController.TransactionStore.Edit | app/Http/Controllers/TransactionController.php:96-111 | Returns the row exactly when it exists and is not locked. A locked row gives "Cannot edit locked transaction.". |
| TransactionController.TransactionStore.Update | app/Http/Controllers/TransactionController.php:116-127 | A locked or missing row leaves the table unchanged, and a locked row gives "Cannot update locked transaction.". Otherwise only that row's data fields change. Locked rows never change. Counters stay ordered with ids, under both the as-written and the corrected counter reading. |
| TransactionController.TransactionStore.Destroy | app/Http/Controllers/TransactionController.php:132-143 | A locked or missing row leaves the table unchanged, and a locked row gives "Cannot delete locked transaction.". Otherwise exactly that row is removed. Locked rows are never removed. Counters stay ordered with ids, under both counter readings. |
| TransactionController.TransactionStore.Index | app/Http/Controllers/TransactionController.php:18-50 | Returns at most 15 listed rows. They are page `page` of some newest-first order of exactly the matching rows, and the total is the number of matching rows. |
| StoreTransactionRequest.FailuresAreBrokenRules | app/Http/Requests/StoreTransactionRequest.php:24-34 | A failure is reported exactly when the rule-by-rule table says that rule is broken. |
| StoreTransactionRequest.Rules | app/Http/Requests/StoreTransactionRequest.php:22-35 | Every field declares at least two rules, the first `required` or `nullable`. It is `nullable` exactly for the payment date and the proof file. |
| StoreTransactionRequest.Failures | app/Http/Requests/StoreTransactionRequest.php:24-34 | The failed rules of a request, field by field in declaration order. Definition only; `FailuresAreBrokenRules` and `PassesIffAcceptable` state what it reports. |
| StoreTransactionRequest.DateFailures | app/Http/Requests/StoreTransactionRequest.php:25-27 | A missing date fails `required` only when the field is required; a malformed or impossible date fails `date`. Definition only; `DatesRequired` and `FieldFailuresAreBroken` state it. |
| StoreTransactionRequest.ExistsFailures | app/Http/Requests/StoreTransactionRequest.php:28-29 | A missing id fails `required`; a value that is no id, or an id outside the table, fails `exists`. Definition only; `FieldFailuresAreBroken` states it. |
| StoreTransactionRequest.TypeFailures | app/Http/Requests/StoreTransactionRequest.php:30 | A missing or blank type fails `required`; a non-string or a name outside the four fails `in`. Definition only; `TypePasses` states it. |
| StoreTransactionRequest.AmountFailures | app/Http/Requests/StoreTransactionRequest.php:31 | A missing amount fails `required`, a non-number `numeric`, a negative amount `min`. Definition only; `FieldFailuresAreBroken` states it. |
| StoreTransactionRequest.DescriptionFailures | app/Http/Requests/StoreTransactionRequest.php:32 | A missing or blank description fails `required`, a non-string `string`, more than 1000 characters `max`. Definition only; `FieldFailuresAreBroken` states it. |
| StoreTransactionRequest.ProofFailures | app/Http/Requests/StoreTransactionRequest.php:33 | No file passes; a value that is no file fails `file` and `mimes`, and `max` when longer than 5120; a file fails `mimes` outside pdf/jpg/jpeg/png and `max` above 5120 KB. Definition only; `FieldFailuresAreBroken` states it. |
| StoreTransactionRequest.FieldFailures | app/Http/Requests/StoreTransactionRequest.php:24-34 | The failures of one field, by its rules. Definition only; `FailuresByField` and `FieldFailuresAreBroken` state what it holds. |
| StoreTransactionRequest.Broken | app/Http/Requests/StoreTransactionRequest.php:24-34 | The rule-by-rule table of when each declared rule of a field is broken. Definition only; it is the independent reference for `FailuresAreBrokenRules`. |
| StoreTransactionRequest.Acceptable | app/Http/Requests/StoreTransactionRequest.php:24-34 | The positive statement of a passing request, field by field. Definition only; `PassesIffAcceptable` ties it to the failure list. |
| StoreTransactionRequest.FailuresByField | app/Http/Requests/StoreTransactionRequest.php:24-34 | A failure is in the request's list exactly when it is in its own field's list. |
| StoreTransactionRequest.FieldFailuresAreBroken | app/Http/Requests/StoreTransactionRequest.php:24-34 | Each field's list holds exactly the rules of that field that are broken. |
| StoreTransactionRequest.PassesIffAcceptable | app/Http/Requests/StoreTransactionRequest.php:24-34 | A request passes exactly when every field meets its rules, stated positively. |
| StoreTransactionRequest.TypePasses | app/Http/Requests/StoreTransactionRequest.php:30 | The type passes exactly when it is one of income, expense, return, correction. |
| StoreTransactionRequest.DatesRequired | app/Http/Requests/StoreTransactionRequest.php:25-27 | Transaction and journal dates fail `required` exactly when missing. A missing payment date draws no failure. |
| StoreTransactionRequest.FailuresUseDeclaredRules | app/Http/Requests/StoreTransactionRequest.php:22-35 | Every failure names a rule that `rules()` declares for its field, and `nullable` never fails. |
| StoreTransactionRequest.FieldRulesDeclared | app/Http/Requests/StoreTransactionRequest.php:22-35 | Each field's failures name rules declared for that field. |
| StoreTransactionRequest.TypeNamesNotBlank | app/Http/Requests/StoreTransactionRequest.php:30 | No accepted type name is blank, so `required` never fails on an accepted type. |
| StoreTransactionRequest.MessageFor | app/Http/Requests/StoreTransactionRequest.php:42-59 | A failure gets a custom message exactly when `messages()` has an entry for its field and rule, and that message is the entry's text; otherwise it gets the framework's default for that same field and rule. |
| StoreTransactionRequest.FailureMessages | app/Http/Requests/StoreTransactionRequest.php:42-59 | Every failure a request draws is reported with its entry's text when `messages()` has one, which is always the case for `required`, and with the framework default for its field and rule otherwise. |
| StoreTransactionRequest.NegativeAmountMessage | app/Http/Requests/StoreTransactionRequest.php:31 | A negative amount draws the `amount.min` failure, reported as "Amount must be greater than or equal to 0." (line 55). |
| StoreTransactionRequest.CustomMessage | app/Http/Requests/StoreTransactionRequest.php:42-59 | The fourteen entries of `messages()`, keyed by field and rule. Definition only; `CustomMessagesMatchRules` and `DeclaredDefaults` state its coverage. |
| StoreTransactionRequest.CustomMessagesMatchRules | app/Http/Requests/StoreTransactionRequest.php:44-59 | Every custom message belongs to a rule the field declares. |
| StoreTransactionRequest.DefaultMessages | app/Http/Requests/StoreTransactionRequest.php:42-59 | Every `required` failure has its custom message. The framework's default message is used exactly for `date`, `description.string`, `description.max` and `proof_file.file`. |
| StoreTransactionRequest.DeclaredDefaults | app/Http/Requests/StoreTransactionRequest.php:42-59 | A declared rule lacks a custom message exactly for `date`, `file` and the description's `string` and `max`, and never for `required`. |
| StoreTransactionRequest.Validated | app/Http/Requests/StoreTransactionRequest.php:24-34 | Validated data has valid dates, existing account and unit ids, a non-negative amount, and a non-blank description of at most 1000 characters. |
| StoreTransactionRequest.ValidatedType | app/Http/Requests/StoreTransactionRequest.php:30 | The validated type name is one of the four types and names the parsed type. |
| DashboardController.ApprovedSumBounds | app/Http/Controllers/DashboardController.php:24-48 | A sum over approved rows is 0 when no row counts and non-negative when amounts are. |
| DashboardController.ApprovedSum | app/Http/Controllers/DashboardController.php:24-48 | The SQL sum of the amounts of the approved rows a filter keeps, 0 for none. Definition only; `ApprovedSumBounds`, `ApprovedSumAppend` and `ApprovedSumPermutation` state its properties. |
| DashboardController.Counts | app/Http/Controllers/DashboardController.php:24-48 | A row enters a dashboard sum when it is approved and matches the optional type, year, month and account. Definition only; `ApprovedSumBounds` and `ApprovedSumDominated` use it. |
| DashboardController.InMonth | app/Http/Controllers/DashboardController.php:30-40 | The filter of one type in one year and month, as `whereYear` and `whereMonth` add them. Definition only; `MonthlyAppend` states what it keeps. |
| DashboardController.ApprovedSumAppend | app/Http/Controllers/DashboardController.php:24-48 | Sums are additive over concatenated row sets. |
| DashboardController.ApprovedSumPermutation | app/Http/Controllers/DashboardController.php:24-48 | Sums do not depend on row order. |
| DashboardController.ApprovedSumDominated | app/Http/Controllers/DashboardController.php:24-48 | A sum whose per-row contributions are dominated is dominated. |
| DashboardController.CashBalance | app/Http/Controllers/DashboardController.php:24-28 | The cash balance is 0 when no row is approved. |
| DashboardController.MonthlyIncome | app/Http/Controllers/DashboardController.php:30-34 | The month's income is non-negative on non-negative amounts, and 0 when no approved income row is dated in that year and month. |
| DashboardController.MonthlyExpense | app/Http/Controllers/DashboardController.php:36-40 | The month's expense is non-negative on non-negative amounts, and 0 when no approved expense row is dated in that year and month. |
| DashboardController.Realization | app/Http/Controllers/DashboardController.php:46-48 | The realization is non-negative on non-negative amounts, and 0 when no approved row is dated in that year. |
| DashboardController.CashBalancePermutation | app/Http/Controllers/DashboardController.php:24-28 | The cash balance does not depend on row order. |
| DashboardController.CashBalanceAppend | app/Http/Controllers/DashboardController.php:24-28 | One more row adds its amount if it is approved income, subtracts it if approved expense, and otherwise changes nothing. |
| DashboardController.MonthlyAppend | app/Http/Controllers/DashboardController.php:30-40 | One more row changes the month's income or expense only if it is approved, of that type, and dated in that year and month. |
| DashboardController.RealizationAppend | app/Http/Controllers/DashboardController.php:46-48 | One more row adds to the realization exactly when it is approved and dated in the year, whatever its type. |
| DashboardController.YearIsSumOfMonths | app/Http/Controllers/DashboardController.php:46-70 | With valid dates, a year's sum is the sum of its twelve monthly sums. |
| DashboardController.MonthTotalAppend | app/Http/Controllers/DashboardController.php:51-70 | The sum over the first n months is additive over concatenated row sets. |
| DashboardController.TrendsUpTo | app/Http/Controllers/DashboardController.php:51-70 | The first n trend entries are months 1..n in order, each with that month's income and expense. |
| DashboardController.Trend | app/Http/Controllers/DashboardController.php:53-69 | One trend entry: the month with its approved income and expense. Definition only; `TrendsUpTo` and `MonthlyTrends` state the entries. |
| DashboardController.TrendTotalBound | app/Http/Controllers/DashboardController.php:51-70 | With non-negative amounts, the income and expense of the first n trend entries add up to at most the first n months' approved total. |
| DashboardController.MonthDominated | app/Http/Controllers/DashboardController.php:30-40 | With non-negative amounts, a month's income plus expense is at most its approved total over all types. |
| DashboardController.MonthlyTrends | app/Http/Controllers/DashboardController.php:51-70 | The loop yields exactly 12 entries, months 1..12 in order, with each month's income and expense, zero sums included. |
| DashboardController.RealizationCoversTrends | app/Http/Controllers/DashboardController.php:46-70 | With non-negative amounts and valid dates, the realization is at least the sum of income and expense over the 12 trend months. |
| DashboardController.BudgetSum | app/Http/Controllers/DashboardController.php:42-44 | A budget sum over approved budgets of the fiscal year is 0 when none counts and non-negative when amounts are. |
| DashboardController.TotalBudgetAppend | app/Http/Controllers/DashboardController.php:42-44 | One more budget adds its amount exactly when it is approved and of the fiscal year. |
| DashboardController.BudgetSumAppend | app/Http/Controllers/DashboardController.php:42-44 | Budget sums are additive over concatenated budget lists. |
| DashboardController.TotalBudget | app/Http/Controllers/DashboardController.php:42-44 | The total budget is non-negative on non-negative amounts, and 0 when no approved budget is of that fiscal year. |
| DashboardController.BudgetUtilization | app/Http/Controllers/DashboardController.php:102 | Utilization is 0 without a positive budget. Otherwise it is realization ÷ budget × 100, exactly. |
| DashboardController.SummaryOf | app/Http/Controllers/DashboardController.php:95-103 | The `financialSummary` array from the six figures. Definition only; `Index` states the view holds it. |
| DashboardController.UtilizationBounds | app/Http/Controllers/DashboardController.php:102 | Utilization is within 0..100 when realization is within the budget. It exceeds 100 on overspending and is negative for a negative realization: nothing is clamped. |
| DashboardController.TxSumOrNull | app/Http/Controllers/DashboardController.php:82-84 | `withSum` is null exactly when no related row counts, and otherwise the sum. |
| DashboardController.BudgetSumOrNull | app/Http/Controllers/DashboardController.php:79-81 | `withSum` over budgets is null exactly when no budget counts, and otherwise the sum. |
| DashboardController.ComparisonSums | app/Http/Controllers/DashboardController.php:90-91 | With `?? 0`, an account's row holds the plain sums over rows posted to its own id. |
| DashboardController.ComparisonOf | app/Http/Controllers/DashboardController.php:79-93 | An account's row: its name, its budget sum and its transaction sum for the year, a null sum read as 0. Definition only; `ComparisonSums` and `ComparisonDirectOnly` state its contents. |
| DashboardController.TopLevel | app/Http/Controllers/DashboardController.php:85 | An account is kept exactly when it is one of the accounts and has level 1. |
| DashboardController.BudgetComparison | app/Http/Controllers/DashboardController.php:79-93 | Every comparison row is that of some level-1 account. |
| DashboardController.ComparisonPerTopAccount | app/Http/Controllers/DashboardController.php:85-93 | There is exactly one row per level-1 account, in table order. |
| DashboardController.ComparisonDirectOnly | app/Http/Controllers/DashboardController.php:79-93 | A transaction on any other account, a child account included, leaves an account's row unchanged. |
| DashboardController.ComparisonExample | app/Http/Controllers/DashboardController.php:79-93 | Budgets of 1,000,000.00 and 2,000,000.00 and one 500,000.00 transaction on account 1 compare 3,000,000.00 against 500,000.00. |
| DashboardController.RecentAreNewest | app/Http/Controllers/DashboardController.php:73-76 | The recent list has min(10, n) rows, each at least as new as every row left out. |
| DashboardController.RecentOf | app/Http/Controllers/DashboardController.php:73-76 | `latest()->limit(10)`: the first ten rows of some newest-first order of all rows. Definition only; `RecentAreNewest` states its length and recency. |
| DashboardController.Index | app/Http/Controllers/DashboardController.php:18-107 | The view holds the summary figures, the 12-month trend, the comparison table and ten newest rows. The trend entry of the current month equals the month's income and expense. |

## Left out

- Rendering, redirects, flash success messages, Inertia views and eager-loaded relations are not modelled. The model returns the data and the refusal messages.
- The clock, `auth()->id()` and the creation timestamp are parameters. Clocks and authentication lie outside the model.
- Concurrency is not modelled. Two simultaneous `store` calls can read the same latest number; only sequential creation is modelled.
- File storage is not modelled. An uploaded proof file is represented by the path it converts to, its extension and its size.
- Time zones, `updated_at`, `approved_at` and approval itself are not modelled. No core operation approves a transaction.
- Decimal rounding and 15-digit overflow are not modelled: amounts are unbounded integers of cents.
- `budgetUtilization` is computed as an exact real, not a PHP float.
- Database collation is not modelled. Type and status filters compare exactly, and the unique index compares numbers exactly. MySQL's case-insensitive collation would also equate numbers differing only in case, which the generator never produces.
- `LIKE` escape characters are not modelled. The listing's search term is used as a pattern, so `%` and `_` in it act as wildcards.
- The filters' date strings are taken as already-parsed dates. Their parsing lies in the framework.
- `Intval` does not model PHP's numeric-string forms with a fraction or exponent. Only whitespace, sign and leading digits are read, which covers every suffix the generator produces.
- The framework's default message texts for `date`, `string`, `max` and `file` are not modelled: `MessageFor` returns `FrameworkDefault` instead.
- `TransactionStore.Update` takes the same validated data as `store`. The update request's rules are not part of this model.
- `TransactionStore.Update`: an absent key and a null key are the same here. When the request omits `payment_date` or `proof_file`, the model writes `None`, whereas `update($request->validated())` leaves the stored date or proof path as it was. The model also writes the upload's converted path, whereas `update` stores no new upload.
- `TransactionStore.Store` models the generator as written. Its freshness is proved only under the bound in `NumberIsFresh` (latest counter below 9999). The number after `…-9999` is `…-10000`, which is fresh. The number after that is `…-0001` again, which the unique index refuses while the bucket's `0001` row still exists (`destroy` may have removed it). The corrected generator is the class method `GenerateTransactionNumberFixed`, fresh with no bound.
- The `create`/`show` actions and `BasAccount::active()` feed only views.
- The `.tsx` pages and components, the seeder, the routes and the migrations are not modelled. The migrations are used only for the column domains and the unique index.
- `latest()` leaves ties between equal timestamps in an order the engine chooses. The listing and the recent list promise only some newest-first order of the right rows.

## Findings

| source | as written | input that shows it | evidently intended | confidence | as-written member | corrected member |
|---|---|---|---|---|---|---|
| app/Http/Controllers/TransactionController.php:167-173 | The counter is read from the last four characters only, and `str_pad` does not truncate, so after `…-9999` comes `…-10000`. Its last four characters read 0, so the next number is `…-0001` again. | A bucket whose latest number is `EXP-20240315-10000` yields `EXP-20240315-0001`, which is already taken. The unique index then rejects the insert. | Numbers keep increasing past 9999, so the generator never repeats a number of its bucket. | not executed | TransactionNumbers.SuffixWrapsAfter9999 | TransactionController.NumberIsFreshFixed |

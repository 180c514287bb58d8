/**
 * The dashboard's figures: sums of approved transaction and budget amounts
 * (in cents) filtered by type, year, month and account, the twelve-month
 * trend built month by month, the budget-versus-realization table of the
 * top-level accounts, and the utilization percentage.
 */
module DashboardController {
  import opened Wrappers
  import opened Calendar
  import opened Records
  import opened Ordering

  /** The where-clauses of one transaction sum; `None` leaves that column unconstrained. */
  datatype TxFilter = TxFilter(txType: Option<TxType>, year: Option<int>, month: Option<int>, account: Option<int>)

  /** `Transaction::approved()` and the filter's clauses. */
  predicate Counts(t: Transaction, f: TxFilter) {
    && ApprovedTx(t)
    && (f.txType.Some? ==> t.txType == f.txType.value)
    && (f.year.Some? ==> t.transactionDate.year == f.year.value)
    && (f.month.Some? ==> t.transactionDate.month == f.month.value)
    && (f.account.Some? ==> t.basAccountId == f.account.value)
  }

  function Contribution(t: Transaction, f: TxFilter): int {
    if Counts(t, f) then t.amount else 0
  }

  /** The sum of the amounts of the rows the filter keeps; no rows sum to 0. */
  function ApprovedSum(txs: seq<Transaction>, f: TxFilter): int {
    if txs == [] then 0 else Contribution(txs[0], f) + ApprovedSum(txs[1..], f)
  }

  /** A sum is 0 when no row counts, and non-negative when no amount is negative. */
  lemma {:induction false} ApprovedSumBounds(txs: seq<Transaction>, f: TxFilter)
    ensures (forall t :: t in txs ==> !Counts(t, f)) ==> ApprovedSum(txs, f) == 0
    ensures (forall t :: t in txs ==> t.amount >= 0) ==> ApprovedSum(txs, f) >= 0
  {
    if txs != [] {
      assert txs[0] in txs;
      assert forall t :: t in txs[1..] ==> t in txs;
      ApprovedSumBounds(txs[1..], f);
    }
  }

  lemma {:induction false} ApprovedSumAppend(a: seq<Transaction>, b: seq<Transaction>, f: TxFilter)
    ensures ApprovedSum(a + b, f) == ApprovedSum(a, f) + ApprovedSum(b, f)
  {
    if a != [] {
      assert (a + b)[0] == a[0];
      assert (a + b)[1..] == a[1..] + b;
      ApprovedSumAppend(a[1..], b, f);
    } else {
      assert a + b == b;
    }
  }

  /** Removing one row takes away exactly its contribution. */
  lemma ApprovedSumRemove(s: seq<Transaction>, i: nat, f: TxFilter)
    requires i < |s|
    ensures ApprovedSum(s, f) == Contribution(s[i], f) + ApprovedSum(s[..i] + s[i + 1..], f)
  {
    assert s == s[..i] + ([s[i]] + s[i + 1..]);
    ApprovedSumAppend(s[..i], [s[i]] + s[i + 1..], f);
    ApprovedSumAppend(s[..i], s[i + 1..], f);
  }

  /** The first row of a permutation sits somewhere in the other; without both, the rests are permutations. */
  lemma MatchFirst(a: seq<Transaction>, b: seq<Transaction>) returns (i: nat)
    requires a != [] && multiset(a) == multiset(b)
    ensures i < |b| && b[i] == a[0]
    ensures multiset(a[1..]) == multiset(b[..i] + b[i + 1..])
  {
    assert a[0] in multiset(b);
    i :| 0 <= i < |b| && b[i] == a[0];
    assert b == b[..i] + [b[i]] + b[i + 1..];
    assert a == [a[0]] + a[1..];
    calc {
      multiset(a[1..]);
      multiset(a) - multiset{a[0]};
      multiset(b) - multiset{b[i]};
      multiset(b[..i]) + multiset(b[i + 1..]);
      multiset(b[..i] + b[i + 1..]);
    }
  }

  /** Sums do not depend on the order of the rows. */
  lemma {:induction false} ApprovedSumPermutation(a: seq<Transaction>, b: seq<Transaction>, f: TxFilter)
    requires multiset(a) == multiset(b)
    ensures ApprovedSum(a, f) == ApprovedSum(b, f)
    decreases |a|
  {
    if a == [] {
      assert |b| == |multiset(b)| == 0;
    } else {
      var i := MatchFirst(a, b);
      ApprovedSumPermutation(a[1..], b[..i] + b[i + 1..], f);
      ApprovedSumRemove(b, i, f);
    }
  }

  /** Row by row, if each row contributes to `f1` and `f2` together no more than to `f3`, so do the sums. */
  lemma {:induction false} ApprovedSumDominated(txs: seq<Transaction>, f1: TxFilter, f2: TxFilter, f3: TxFilter)
    requires forall t :: t in txs ==> Contribution(t, f1) + Contribution(t, f2) <= Contribution(t, f3)
    ensures ApprovedSum(txs, f1) + ApprovedSum(txs, f2) <= ApprovedSum(txs, f3)
  {
    if txs != [] {
      assert txs[0] in txs;
      assert forall t :: t in txs[1..] ==> t in txs;
      ApprovedSumDominated(txs[1..], f1, f2, f3);
    }
  }

  function Only(ty: TxType): TxFilter {
    TxFilter(Some(ty), None, None, None)
  }

  function InMonth(ty: TxType, year: int, month: int): TxFilter {
    TxFilter(Some(ty), Some(year), Some(month), None)
  }

  function AllTypesIn(year: int): TxFilter {
    TxFilter(None, Some(year), None, None)
  }

  /** `totalCashBalance`: approved income minus approved expense, of all time. */
  function CashBalance(txs: seq<Transaction>): (b: int)
    ensures (forall t :: t in txs ==> !ApprovedTx(t)) ==> b == 0
  {
    ApprovedSumBounds(txs, Only(Income));
    ApprovedSumBounds(txs, Only(Expense));
    ApprovedSum(txs, Only(Income)) - ApprovedSum(txs, Only(Expense))
  }

  /** `monthlyIncome` of a year and month. */
  function MonthlyIncome(txs: seq<Transaction>, year: int, month: int): (r: int)
    ensures (forall t :: t in txs ==> t.amount >= 0) ==> r >= 0
    ensures (forall t :: t in txs && ApprovedTx(t) && t.txType == Income ==>
      t.transactionDate.year != year || t.transactionDate.month != month) ==> r == 0
  {
    ApprovedSumBounds(txs, InMonth(Income, year, month));
    ApprovedSum(txs, InMonth(Income, year, month))
  }

  /** `monthlyExpense` of a year and month. */
  function MonthlyExpense(txs: seq<Transaction>, year: int, month: int): (r: int)
    ensures (forall t :: t in txs ==> t.amount >= 0) ==> r >= 0
    ensures (forall t :: t in txs && ApprovedTx(t) && t.txType == Expense ==>
      t.transactionDate.year != year || t.transactionDate.month != month) ==> r == 0
  {
    ApprovedSumBounds(txs, InMonth(Expense, year, month));
    ApprovedSum(txs, InMonth(Expense, year, month))
  }

  /** `budgetRealization`: approved transactions of every type in the year. */
  function Realization(txs: seq<Transaction>, year: int): (r: int)
    ensures (forall t :: t in txs ==> t.amount >= 0) ==> r >= 0
    ensures (forall t :: t in txs && ApprovedTx(t) ==> t.transactionDate.year != year) ==> r == 0
  {
    ApprovedSumBounds(txs, AllTypesIn(year));
    ApprovedSum(txs, AllTypesIn(year))
  }

  /** The cash balance does not depend on the order of the rows. */
  lemma CashBalancePermutation(a: seq<Transaction>, b: seq<Transaction>)
    requires multiset(a) == multiset(b)
    ensures CashBalance(a) == CashBalance(b)
  {
    ApprovedSumPermutation(a, b, Only(Income));
    ApprovedSumPermutation(a, b, Only(Expense));
  }

  /** One more row moves the balance by its amount if it is approved income, against it if approved expense, and not otherwise. */
  lemma CashBalanceAppend(txs: seq<Transaction>, t: Transaction)
    ensures CashBalance(txs + [t]) == CashBalance(txs) +
      (if !ApprovedTx(t) then 0
       else if t.txType == Income then t.amount
       else if t.txType == Expense then -t.amount
       else 0)
  {
    ApprovedSumAppend(txs, [t], Only(Income));
    ApprovedSumAppend(txs, [t], Only(Expense));
  }

  /** One more row changes the month's income only if it is approved income dated in that month. */
  lemma MonthlyAppend(txs: seq<Transaction>, t: Transaction, year: int, month: int)
    ensures MonthlyIncome(txs + [t], year, month) == MonthlyIncome(txs, year, month) +
      (if ApprovedTx(t) && t.txType == Income && t.transactionDate.year == year && t.transactionDate.month == month
       then t.amount else 0)
    ensures MonthlyExpense(txs + [t], year, month) == MonthlyExpense(txs, year, month) +
      (if ApprovedTx(t) && t.txType == Expense && t.transactionDate.year == year && t.transactionDate.month == month
       then t.amount else 0)
  {
    ApprovedSumAppend(txs, [t], InMonth(Income, year, month));
    ApprovedSumAppend(txs, [t], InMonth(Expense, year, month));
  }

  /** One more row adds to the year's realization exactly when it is approved and dated in that year, whatever its type. */
  lemma RealizationAppend(txs: seq<Transaction>, t: Transaction, year: int)
    ensures Realization(txs + [t], year) == Realization(txs, year) +
      (if ApprovedTx(t) && t.transactionDate.year == year then t.amount else 0)
  {
    ApprovedSumAppend(txs, [t], AllTypesIn(year));
  }

  /** Sum of a transaction filter over the months 1..n of its year. */
  function MonthTotal(txs: seq<Transaction>, f: TxFilter, n: nat): int {
    if n == 0 then 0 else MonthTotal(txs, f, n - 1) + ApprovedSum(txs, f.(month := Some(n)))
  }

  /** A row's contributions over months 1..n: its contribution once if its month is among them. */
  lemma {:induction false} MonthContribution(t: Transaction, f: TxFilter, n: nat)
    requires f.month.None?
    ensures MonthTotal([t], f, n) ==
      if 1 <= t.transactionDate.month <= n then Contribution(t, f) else 0
  {
    if n > 0 {
      MonthContribution(t, f, n - 1);
      var g := f.(month := Some(n));
      assert [t][1..] == [];
      assert ApprovedSum([t], g) == Contribution(t, g);
      assert Contribution(t, g) == if t.transactionDate.month == n then Contribution(t, f) else 0;
    }
  }

  lemma {:induction false} MonthTotalAppend(a: seq<Transaction>, b: seq<Transaction>, f: TxFilter, n: nat)
    ensures MonthTotal(a + b, f, n) == MonthTotal(a, f, n) + MonthTotal(b, f, n)
    decreases n
  {
    if n > 0 {
      MonthTotalAppend(a, b, f, n - 1);
      ApprovedSumAppend(a, b, f.(month := Some(n)));
    }
  }

  /** With valid dates, a year's sum is the sum of its twelve months. */
  lemma {:induction false} YearIsSumOfMonths(txs: seq<Transaction>, f: TxFilter)
    requires f.month.None?
    requires forall t :: t in txs ==> ValidDate(t.transactionDate)
    ensures ApprovedSum(txs, f) == MonthTotal(txs, f, 12)
  {
    if txs != [] {
      var t := txs[0];
      assert t in txs;
      assert forall u :: u in txs[1..] ==> u in txs;
      YearIsSumOfMonths(txs[1..], f);
      MonthContribution(t, f, 12);
      assert 1 <= t.transactionDate.month <= 12;
      assert txs == [t] + txs[1..];
      MonthTotalAppend([t], txs[1..], f, 12);
      assert ApprovedSum(txs, f) == Contribution(t, f) + ApprovedSum(txs[1..], f);
    } else {
      assert txs + txs == txs;
      MonthTotalAppend(txs, txs, f, 12);
    }
  }

  /** One entry of the monthly trend. */
  datatype TrendPoint = TrendPoint(month: int, income: int, expense: int)

  function Trend(txs: seq<Transaction>, year: int, month: int): TrendPoint {
    TrendPoint(month, MonthlyIncome(txs, year, month), MonthlyExpense(txs, year, month))
  }

  /** The trend of months 1..n, in order. */
  function TrendsUpTo(txs: seq<Transaction>, year: int, n: nat): (r: seq<TrendPoint>)
    ensures |r| == n
    ensures forall k :: 0 <= k < n ==> r[k] == Trend(txs, year, k + 1)
  {
    if n == 0 then [] else TrendsUpTo(txs, year, n - 1) + [Trend(txs, year, n)]
  }

  /** Income plus expense over a trend series. */
  function TrendTotal(trends: seq<TrendPoint>): int {
    if trends == [] then 0
    else TrendTotal(trends[..|trends| - 1]) + trends[|trends| - 1].income + trends[|trends| - 1].expense
  }

  /** The monthly trend: one entry per month 1..12, appended in order. */
  method MonthlyTrends(txs: seq<Transaction>, year: int) returns (trends: seq<TrendPoint>)
    ensures trends == TrendsUpTo(txs, year, 12)
    ensures |trends| == 12 && forall k :: 0 <= k < 12 ==> trends[k].month == k + 1
  {
    trends := [];
    var i := 1;
    while i <= 12
      invariant 1 <= i <= 13
      invariant trends == TrendsUpTo(txs, year, i - 1)
    {
      var income := ApprovedSum(txs, InMonth(Income, year, i));
      var expense := ApprovedSum(txs, InMonth(Expense, year, i));
      trends := trends + [TrendPoint(i, income, expense)];
      i := i + 1;
    }
  }

  /** Row by row: income plus expense of a month is within the month's all-type sum. */
  lemma MonthDominated(txs: seq<Transaction>, year: int, n: int)
    requires forall t :: t in txs ==> t.amount >= 0
    ensures MonthlyIncome(txs, year, n) + MonthlyExpense(txs, year, n) <= ApprovedSum(txs, AllTypesIn(year).(month := Some(n)))
  {
    var all := AllTypesIn(year).(month := Some(n));
    forall t | t in txs
      ensures Contribution(t, InMonth(Income, year, n)) + Contribution(t, InMonth(Expense, year, n)) <= Contribution(t, all)
    {
    }
    ApprovedSumDominated(txs, InMonth(Income, year, n), InMonth(Expense, year, n), all);
  }

  lemma {:induction false} TrendTotalBound(txs: seq<Transaction>, year: int, n: nat)
    requires forall t :: t in txs ==> t.amount >= 0
    ensures TrendTotal(TrendsUpTo(txs, year, n)) <= MonthTotal(txs, AllTypesIn(year), n)
  {
    if n > 0 {
      TrendTotalBound(txs, year, n - 1);
      var s := TrendsUpTo(txs, year, n);
      assert s[..n - 1] == TrendsUpTo(txs, year, n - 1);
      assert s[n - 1] == Trend(txs, year, n);
      assert TrendTotal(s) == TrendTotal(s[..n - 1]) + s[n - 1].income + s[n - 1].expense;
      MonthDominated(txs, year, n);
    }
  }

  /**
   * With non-negative amounts and valid dates, the year's realization covers
   * the income and expense of the twelve trend months (it also counts
   * returns and corrections).
   */
  lemma RealizationCoversTrends(txs: seq<Transaction>, year: int)
    requires forall t :: t in txs ==> t.amount >= 0 && ValidDate(t.transactionDate)
    ensures Realization(txs, year) >= TrendTotal(TrendsUpTo(txs, year, 12))
  {
    TrendTotalBound(txs, year, 12);
    YearIsSumOfMonths(txs, AllTypesIn(year));
  }

  /** The where-clauses of one budget sum. */
  datatype BudgetFilter = BudgetFilter(year: int, account: Option<int>)

  /** `Budget::approved()` and the filter's clauses. */
  predicate BudgetCounts(b: Budget, f: BudgetFilter) {
    ApprovedBudget(b) && b.fiscalYear == f.year && (f.account.Some? ==> b.basAccountId == f.account.value)
  }

  function BudgetSum(budgets: seq<Budget>, f: BudgetFilter): (r: int)
    ensures (forall b :: b in budgets ==> !BudgetCounts(b, f)) ==> r == 0
    ensures (forall b :: b in budgets ==> b.amount >= 0) ==> r >= 0
  {
    if budgets == [] then 0
    else
      assert forall b :: b in budgets[1..] ==> b in budgets;
      (if BudgetCounts(budgets[0], f) then budgets[0].amount else 0) + BudgetSum(budgets[1..], f)
  }

  lemma {:induction false} BudgetSumAppend(a: seq<Budget>, b: seq<Budget>, f: BudgetFilter)
    ensures BudgetSum(a + b, f) == BudgetSum(a, f) + BudgetSum(b, f)
  {
    if a != [] {
      assert (a + b)[0] == a[0];
      assert (a + b)[1..] == a[1..] + b;
      BudgetSumAppend(a[1..], b, f);
    } else {
      assert a + b == b;
    }
  }

  /** `totalBudget`: approved budgets of the fiscal year. */
  function TotalBudget(budgets: seq<Budget>, year: int): (r: int)
    ensures (forall b :: b in budgets ==> b.amount >= 0) ==> r >= 0
    ensures (forall b :: b in budgets && b.status == Approved ==> b.fiscalYear != year) ==> r == 0
  {
    BudgetSum(budgets, BudgetFilter(year, None))
  }

  /** One more budget adds to the total exactly when it is approved and of that fiscal year. */
  lemma TotalBudgetAppend(budgets: seq<Budget>, b: Budget, year: int)
    ensures TotalBudget(budgets + [b], year) == TotalBudget(budgets, year) +
      (if ApprovedBudget(b) && b.fiscalYear == year then b.amount else 0)
  {
    BudgetSumAppend(budgets, [b], BudgetFilter(year, None));
  }

  /** `budgetUtilization`: realization as a percentage of the budget, 0 without a positive budget; not clamped. */
  function BudgetUtilization(totalBudget: int, realization: int): (u: real)
    ensures totalBudget <= 0 ==> u == 0.0
    ensures totalBudget > 0 ==> u * (totalBudget as real) == (realization as real) * 100.0
  {
    if totalBudget > 0 then (realization as real / totalBudget as real) * 100.0 else 0.0
  }

  /** Utilization lies in 0..100 when realization is within a positive budget, and exceeds 100 on overspending. */
  lemma UtilizationBounds(totalBudget: int, realization: int)
    requires totalBudget > 0
    ensures 0 <= realization <= totalBudget ==> 0.0 <= BudgetUtilization(totalBudget, realization) <= 100.0
    ensures realization > totalBudget ==> BudgetUtilization(totalBudget, realization) > 100.0
    ensures realization < 0 ==> BudgetUtilization(totalBudget, realization) < 0.0
  {
    var u := BudgetUtilization(totalBudget, realization);
    var tb := totalBudget as real;
    assert u * tb == (realization as real) * 100.0;
    if realization > totalBudget {
      assert u * tb > tb * 100.0;
    }
    if 0 <= realization <= totalBudget {
      assert u * tb <= tb * 100.0;
      assert u * tb >= 0.0;
    }
  }

  /** `withSum(...)`: the sum over the related rows, null when there are none. */
  function TxSumOrNull(txs: seq<Transaction>, f: TxFilter): (r: Option<int>)
    ensures r.None? <==> forall t :: t in txs ==> !Counts(t, f)
    ensures r.Some? ==> r.value == ApprovedSum(txs, f)
  {
    if exists i :: 0 <= i < |txs| && Counts(txs[i], f) then Some(ApprovedSum(txs, f)) else None
  }

  function BudgetSumOrNull(budgets: seq<Budget>, f: BudgetFilter): (r: Option<int>)
    ensures r.None? <==> forall b :: b in budgets ==> !BudgetCounts(b, f)
    ensures r.Some? ==> r.value == BudgetSum(budgets, f)
  {
    if exists i :: 0 <= i < |budgets| && BudgetCounts(budgets[i], f) then Some(BudgetSum(budgets, f)) else None
  }

  /** One row of `budgetComparison`. */
  datatype Comparison = Comparison(name: string, budget: int, realization: int)

  /** An account's row: sums over rows posted to that very account id, a null sum read as 0. */
  function ComparisonOf(a: BasAccount, budgets: seq<Budget>, txs: seq<Transaction>, year: int): Comparison {
    Comparison(
      a.name,
      BudgetSumOrNull(budgets, BudgetFilter(year, Some(a.id))).GetOr(0),
      TxSumOrNull(txs, TxFilter(None, Some(year), None, Some(a.id))).GetOr(0))
  }

  /** `budgetComparison`: the level-1 accounts in table order, each with its row. */
  function BudgetComparison(accounts: seq<BasAccount>, budgets: seq<Budget>, txs: seq<Transaction>, year: int): (r: seq<Comparison>)
    ensures |r| <= |accounts|
    ensures forall c :: c in r ==> exists a :: a in accounts && a.level == 1 && c == ComparisonOf(a, budgets, txs, year)
  {
    if accounts == [] then []
    else
      var rest := BudgetComparison(accounts[1..], budgets, txs, year);
      assert forall a :: a in accounts[1..] ==> a in accounts;
      if accounts[0].level == 1 then [ComparisonOf(accounts[0], budgets, txs, year)] + rest else rest
  }

  /** The level-1 accounts, in table order. */
  function TopLevel(accounts: seq<BasAccount>): (r: seq<BasAccount>)
    ensures forall a :: a in r <==> a in accounts && a.level == 1
  {
    if accounts == [] then []
    else if accounts[0].level == 1 then [accounts[0]] + TopLevel(accounts[1..])
    else TopLevel(accounts[1..])
  }

  /** One row per level-1 account, in order, and none for any other account. */
  lemma {:induction false} ComparisonPerTopAccount(accounts: seq<BasAccount>, budgets: seq<Budget>, txs: seq<Transaction>, year: int)
    ensures var r := BudgetComparison(accounts, budgets, txs, year);
      |r| == |TopLevel(accounts)|
      && forall k :: 0 <= k < |r| ==> r[k] == ComparisonOf(TopLevel(accounts)[k], budgets, txs, year)
  {
    if accounts != [] {
      ComparisonPerTopAccount(accounts[1..], budgets, txs, year);
      var r := BudgetComparison(accounts, budgets, txs, year);
      var rest := BudgetComparison(accounts[1..], budgets, txs, year);
      var top := TopLevel(accounts);
      var topRest := TopLevel(accounts[1..]);
      if accounts[0].level == 1 {
        assert r == [ComparisonOf(accounts[0], budgets, txs, year)] + rest;
        assert top == [accounts[0]] + topRest;
      } else {
        assert r == rest && top == topRest;
      }
    }
  }

  /** A missing sum reads as 0, which is the sum over no rows: the row holds the plain sums. */
  lemma ComparisonSums(a: BasAccount, budgets: seq<Budget>, txs: seq<Transaction>, year: int)
    ensures ComparisonOf(a, budgets, txs, year).budget == BudgetSum(budgets, BudgetFilter(year, Some(a.id)))
    ensures ComparisonOf(a, budgets, txs, year).realization == ApprovedSum(txs, TxFilter(None, Some(year), None, Some(a.id)))
  {
  }

  /**
   * Only rows posted directly to the account count: a transaction on any
   * other account (a child account included) leaves the account's row as it is.
   */
  lemma ComparisonDirectOnly(a: BasAccount, budgets: seq<Budget>, txs: seq<Transaction>, year: int, t: Transaction)
    requires t.basAccountId != a.id
    ensures ComparisonOf(a, budgets, txs + [t], year) == ComparisonOf(a, budgets, txs, year)
  {
    ComparisonSums(a, budgets, txs, year);
    ComparisonSums(a, budgets, txs + [t], year);
    ApprovedSumAppend(txs, [t], TxFilter(None, Some(year), None, Some(a.id)));
  }

  /**
   * Account 1 at level 1 with approved 2024 budgets of 1,000,000.00 and
   * 2,000,000.00 and one approved 2024 transaction of 500,000.00 on it
   * compares 3,000,000.00 against 500,000.00.
   */
  lemma ComparisonExample(a: BasAccount, b1: Budget, b2: Budget, t: Transaction)
    requires a.id == 1 && a.level == 1
    requires b1.basAccountId == 1 && b1.fiscalYear == 2024 && b1.status == Approved && b1.amount == 100000000
    requires b2.basAccountId == 1 && b2.fiscalYear == 2024 && b2.status == Approved && b2.amount == 200000000
    requires t.basAccountId == 1 && t.transactionDate.year == 2024 && t.status == Approved && t.amount == 50000000
    ensures BudgetComparison([a], [b1, b2], [t], 2024) == [Comparison(a.name, 300000000, 50000000)]
  {
    ComparisonSums(a, [b1, b2], [t], 2024);
    assert [b1, b2][1..] == [b2];
  }

  /** `financialSummary`. */
  datatype Summary = Summary(
    totalCashBalance: int,
    monthlyIncome: int,
    monthlyExpense: int,
    totalBudget: int,
    budgetRealization: int,
    budgetUtilization: real)

  function SummaryOf(txs: seq<Transaction>, budgets: seq<Budget>, year: int, month: int): Summary {
    var tb := TotalBudget(budgets, year);
    var realized := Realization(txs, year);
    Summary(CashBalance(txs), MonthlyIncome(txs, year, month), MonthlyExpense(txs, year, month), tb, realized,
      BudgetUtilization(tb, realized))
  }

  /** The recent list: one newest-first order of the rows, cut to ten. */
  predicate RecentOf(recent: seq<Transaction>, ord: seq<Transaction>, txs: seq<Transaction>) {
    && multiset(ord) == multiset(txs) && NewestFirst(ord)
    && recent == ord[..if |ord| < 10 then |ord| else 10]
  }

  /** The ten shown are at least as new as every row left out. */
  lemma RecentAreNewest(recent: seq<Transaction>, ord: seq<Transaction>, txs: seq<Transaction>)
    requires RecentOf(recent, ord, txs)
    ensures |recent| == if |txs| < 10 then |txs| else 10
    ensures forall i, j :: 0 <= i < |recent| <= j < |ord| ==> recent[i].createdAt >= ord[j].createdAt
  {
    assert |ord| == |multiset(ord)| == |multiset(txs)| == |txs|;
  }

  /** The dashboard's view. */
  datatype Dashboard = Dashboard(
    summary: Summary,
    monthlyTrends: seq<TrendPoint>,
    recentTransactions: seq<Transaction>,
    budgetComparison: seq<Comparison>)

  /** `index` for the year and month of today. */
  method Index(txs: seq<Transaction>, budgets: seq<Budget>, accounts: seq<BasAccount>, year: int, month: int)
    returns (view: Dashboard)
    ensures view.summary == SummaryOf(txs, budgets, year, month)
    ensures view.monthlyTrends == TrendsUpTo(txs, year, 12)
    ensures 1 <= month <= 12 ==>
      && view.monthlyTrends[month - 1].income == view.summary.monthlyIncome
      && view.monthlyTrends[month - 1].expense == view.summary.monthlyExpense
    ensures exists ord :: RecentOf(view.recentTransactions, ord, txs)
    ensures view.budgetComparison == BudgetComparison(accounts, budgets, txs, year)
  {
    var cash := ApprovedSum(txs, Only(Income)) - ApprovedSum(txs, Only(Expense));
    var income := ApprovedSum(txs, InMonth(Income, year, month));
    var expense := ApprovedSum(txs, InMonth(Expense, year, month));
    var totalBudget := BudgetSum(budgets, BudgetFilter(year, None));
    var realization := ApprovedSum(txs, AllTypesIn(year));
    var trends := MonthlyTrends(txs, year);
    var ord := SortNewestFirst(txs);
    var recent := ord[..if |ord| < 10 then |ord| else 10];
    assert RecentOf(recent, ord, txs);
    var comparison := BudgetComparison(accounts, budgets, txs, year);
    view := Dashboard(
      Summary(cash, income, expense, totalBudget, realization, BudgetUtilization(totalBudget, realization)),
      trends, recent, comparison);
  }
}

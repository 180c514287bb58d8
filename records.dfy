/**
 * The persisted records: transactions, budgets and ledger (BAS) accounts,
 * with the enumerations of their columns. Amounts are integers in cents
 * (the columns are decimal(15,2)).
 */
module Records {
  import opened Wrappers
  import opened Calendar

  /** The `type` column of transactions. */
  datatype TxType = Income | Expense | Return | Correction {
    function Name(): string {
      match this
      case Income => "income"
      case Expense => "expense"
      case Return => "return"
      case Correction => "correction"
    }
  }

  /** The `status` column shared by transactions and budgets. */
  datatype Status = Draft | Approved | Locked {
    function Name(): string {
      match this
      case Draft => "draft"
      case Approved => "approved"
      case Locked => "locked"
    }
  }

  /** Parses a type name, as the `in:income,expense,return,correction` rule admits it. */
  function TxTypeOf(name: string): (t: Option<TxType>)
    ensures t.Some? ==> t.value.Name() == name
    ensures t.None? ==> forall u: TxType :: u.Name() != name
  {
    if name == "income" then Some(Income)
    else if name == "expense" then Some(Expense)
    else if name == "return" then Some(Return)
    else if name == "correction" then Some(Correction)
    else None
  }

  datatype Transaction = Transaction(
    id: nat,
    number: string,
    transactionDate: Date,
    journalDate: Date,
    paymentDate: Option<Date>,
    basAccountId: int,
    hospitalUnitId: int,
    txType: TxType,
    amount: int,
    description: string,
    proofFile: Option<string>,
    status: Status,
    createdBy: nat,
    approvedBy: Option<nat>,
    createdAt: nat)

  datatype BudgetType = Initial | Shifting | Revised

  datatype Budget = Budget(
    id: nat,
    fiscalYear: int,
    basAccountId: int,
    hospitalUnitId: int,
    budgetType: BudgetType,
    amount: int,
    description: Option<string>,
    status: Status,
    createdBy: nat,
    approvedBy: Option<nat>)

  datatype AccountType = Asset | Liability | Equity | Revenue | ExpenseAccount

  datatype BasAccount = BasAccount(
    id: int,
    code: string,
    name: string,
    description: Option<string>,
    parentId: Option<int>,
    accountType: AccountType,
    level: int,
    isActive: bool)

  /** The `approved()` scope of transactions. */
  predicate ApprovedTx(t: Transaction) {
    t.status == Approved
  }

  /** The `approved()` scope of budgets. */
  predicate ApprovedBudget(b: Budget) {
    b.status == Approved
  }

  /** The guard of edit, update and destroy: a locked transaction is never modified. */
  predicate CanModify(t: Transaction) {
    t.status != Locked
  }
}

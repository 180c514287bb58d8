/**
 * The store request of transactions: its rule table, the failures a request
 * draws (in the order the rules are declared) and the custom messages.
 */
module StoreTransactionRequest {
  import opened Wrappers
  import opened Calendar
  import opened Records
  import opened Text

  /**
   * A request field as the validator sees it: `Missing` is absent, null or
   * empty; `Malformed` is present but not of the expected kind (text that is
   * no date or no number, an array where text is expected).
   */
  datatype Field<T> = Missing | Malformed | Given(value: T)

  /** The `proof_file` field; an upload carries the path it converts to, its guessed extension and its size. */
  datatype ProofField =
    | NoFile
    | NotAFile(length: nat)
    | UploadedFile(path: string, extension: string, sizeBytes: nat)

  datatype Input = Input(
    transactionDate: Field<Date>,
    journalDate: Field<Date>,
    paymentDate: Field<Date>,
    basAccountId: Field<int>,
    hospitalUnitId: Field<int>,
    txType: Field<string>,
    amount: Field<int>,
    description: Field<string>,
    proofFile: ProofField)

  datatype FieldName =
    | TransactionDate | JournalDate | PaymentDate | BasAccountId | HospitalUnitId
    | TypeField | Amount | Description | ProofFile

  datatype Rule = Required | Nullable | DateRule | Exists | In | Numeric | Min | StringRule | Max | FileRule | Mimes

  datatype Violation = Violation(field: FieldName, rule: Rule)

  const TxTypes: set<string> := {"income", "expense", "return", "correction"}
  const ProofExtensions: set<string> := {"pdf", "jpg", "jpeg", "png"}
  const MaxDescriptionLength: nat := 1000
  /** `max:5120` on a file is in kilobytes of 1024 bytes. */
  const MaxProofBytes: nat := 5120 * 1024

  /** `rules()`: the rules of each field, in declaration order. */
  function Rules(f: FieldName): (r: seq<Rule>)
    ensures |r| >= 2 && (r[0] == Required || r[0] == Nullable)
    ensures r[0] == Nullable <==> f == PaymentDate || f == ProofFile
  {
    match f
    case TransactionDate => [Required, DateRule]
    case JournalDate => [Required, DateRule]
    case PaymentDate => [Nullable, DateRule]
    case BasAccountId => [Required, Exists]
    case HospitalUnitId => [Required, Exists]
    case TypeField => [Required, In]
    case Amount => [Required, Numeric, Min]
    case Description => [Required, StringRule, Max]
    case ProofFile => [Nullable, FileRule, Mimes, Max]
  }

  /** `required|date` or `nullable|date`: a missing value only fails `required`. */
  function DateFailures(name: FieldName, v: Field<Date>, required: bool): seq<Violation> {
    match v
    case Missing => if required then [Violation(name, Required)] else []
    case Malformed => [Violation(name, DateRule)]
    case Given(d) => if ValidDate(d) then [] else [Violation(name, DateRule)]
  }

  /** `required|exists:<table>,id`: a value that is no id matches no row. */
  function ExistsFailures(name: FieldName, v: Field<int>, ids: set<int>): seq<Violation> {
    match v
    case Missing => [Violation(name, Required)]
    case Malformed => [Violation(name, Exists)]
    case Given(id) => if id in ids then [] else [Violation(name, Exists)]
  }

  /** `required|in:income,expense,return,correction` */
  function TypeFailures(v: Field<string>): seq<Violation> {
    match v
    case Missing => [Violation(TypeField, Required)]
    case Malformed => [Violation(TypeField, In)]
    case Given(s) =>
      if IsBlank(s) then [Violation(TypeField, Required)]
      else if s in TxTypes then []
      else [Violation(TypeField, In)]
  }

  /** `required|numeric|min:0`: non-numeric text fails `numeric` only (its size for `min` is its length). */
  function AmountFailures(v: Field<int>): seq<Violation> {
    match v
    case Missing => [Violation(Amount, Required)]
    case Malformed => [Violation(Amount, Numeric)]
    case Given(a) => if a < 0 then [Violation(Amount, Min)] else []
  }

  /** `required|string|max:1000` */
  function DescriptionFailures(v: Field<string>): seq<Violation> {
    match v
    case Missing => [Violation(Description, Required)]
    case Malformed => [Violation(Description, StringRule)]
    case Given(s) =>
      if IsBlank(s) then [Violation(Description, Required)]
      else if |s| > MaxDescriptionLength then [Violation(Description, Max)]
      else []
  }

  /** `nullable|file|mimes:pdf,jpg,jpeg,png|max:5120`: a value that is no file fails `file` and `mimes`, and `max` on its length. */
  function ProofFailures(v: ProofField): seq<Violation> {
    match v
    case NoFile => []
    case NotAFile(len) =>
      [Violation(ProofFile, FileRule), Violation(ProofFile, Mimes)]
      + (if len > 5120 then [Violation(ProofFile, Max)] else [])
    case UploadedFile(_, ext, size) =>
      (if ext in ProofExtensions then [] else [Violation(ProofFile, Mimes)])
      + (if size > MaxProofBytes then [Violation(ProofFile, Max)] else [])
  }

  /** The failed rules of one field. */
  function FieldFailures(input: Input, accountIds: set<int>, unitIds: set<int>, field: FieldName): seq<Violation> {
    match field
    case TransactionDate => DateFailures(TransactionDate, input.transactionDate, true)
    case JournalDate => DateFailures(JournalDate, input.journalDate, true)
    case PaymentDate => DateFailures(PaymentDate, input.paymentDate, false)
    case BasAccountId => ExistsFailures(BasAccountId, input.basAccountId, accountIds)
    case HospitalUnitId => ExistsFailures(HospitalUnitId, input.hospitalUnitId, unitIds)
    case TypeField => TypeFailures(input.txType)
    case Amount => AmountFailures(input.amount)
    case Description => DescriptionFailures(input.description)
    case ProofFile => ProofFailures(input.proofFile)
  }

  /** Every failed rule of a request, field by field in declaration order. */
  function Failures(input: Input, accountIds: set<int>, unitIds: set<int>): seq<Violation> {
    DateFailures(TransactionDate, input.transactionDate, true)
    + DateFailures(JournalDate, input.journalDate, true)
    + DateFailures(PaymentDate, input.paymentDate, false)
    + ExistsFailures(BasAccountId, input.basAccountId, accountIds)
    + ExistsFailures(HospitalUnitId, input.hospitalUnitId, unitIds)
    + TypeFailures(input.txType)
    + AmountFailures(input.amount)
    + DescriptionFailures(input.description)
    + ProofFailures(input.proofFile)
  }

  /** Each field's list names only that field. */
  lemma FieldFailuresOwnField(input: Input, accountIds: set<int>, unitIds: set<int>, field: FieldName)
    ensures forall fl :: fl in FieldFailures(input, accountIds, unitIds, field) ==> fl.field == field
  {
  }

  /** A failure is in the request's list exactly when it is in its own field's list. */
  lemma FailuresByField(input: Input, accountIds: set<int>, unitIds: set<int>, fl: Violation)
    ensures fl in Failures(input, accountIds, unitIds) <==> fl in FieldFailures(input, accountIds, unitIds, fl.field)
  {
    var all := Failures(input, accountIds, unitIds);
    var own := FieldFailures(input, accountIds, unitIds, fl.field);
    forall field: FieldName
      ensures fl in FieldFailures(input, accountIds, unitIds, field) ==> fl.field == field
    {
      FieldFailuresOwnField(input, accountIds, unitIds, field);
    }
    match fl.field
    case TransactionDate =>
    case JournalDate =>
    case PaymentDate =>
    case BasAccountId =>
    case HospitalUnitId =>
    case TypeField =>
    case Amount =>
    case Description =>
    case ProofFile =>
  }

  /**
   * Rule by rule, when a request breaks it: the reference the failure list is
   * checked against. `required` stops the other rules of its field.
   */
  predicate Broken(input: Input, accountIds: set<int>, unitIds: set<int>, field: FieldName, rule: Rule) {
    match field
    case TransactionDate =>
      (rule == Required && input.transactionDate.Missing?)
      || (rule == DateRule && !input.transactionDate.Missing? && !(input.transactionDate.Given? && ValidDate(input.transactionDate.value)))
    case JournalDate =>
      (rule == Required && input.journalDate.Missing?)
      || (rule == DateRule && !input.journalDate.Missing? && !(input.journalDate.Given? && ValidDate(input.journalDate.value)))
    case PaymentDate =>
      rule == DateRule && !input.paymentDate.Missing? && !(input.paymentDate.Given? && ValidDate(input.paymentDate.value))
    case BasAccountId =>
      (rule == Required && input.basAccountId.Missing?)
      || (rule == Exists && !input.basAccountId.Missing? && !(input.basAccountId.Given? && input.basAccountId.value in accountIds))
    case HospitalUnitId =>
      (rule == Required && input.hospitalUnitId.Missing?)
      || (rule == Exists && !input.hospitalUnitId.Missing? && !(input.hospitalUnitId.Given? && input.hospitalUnitId.value in unitIds))
    case TypeField =>
      var blank := input.txType.Missing? || (input.txType.Given? && IsBlank(input.txType.value));
      (rule == Required && blank)
      || (rule == In && !blank && !(input.txType.Given? && input.txType.value in TxTypes))
    case Amount =>
      (rule == Required && input.amount.Missing?)
      || (rule == Numeric && input.amount.Malformed?)
      || (rule == Min && input.amount.Given? && input.amount.value < 0)
    case Description =>
      var blank := input.description.Missing? || (input.description.Given? && IsBlank(input.description.value));
      (rule == Required && blank)
      || (rule == StringRule && input.description.Malformed?)
      || (rule == Max && !blank && input.description.Given? && |input.description.value| > MaxDescriptionLength)
    case ProofFile =>
      match input.proofFile
      case NoFile => false
      case NotAFile(len) => rule == FileRule || rule == Mimes || (rule == Max && len > 5120)
      case UploadedFile(_, ext, size) =>
        (rule == Mimes && ext !in ProofExtensions) || (rule == Max && size > MaxProofBytes)
  }

  /** A request every rule accepts, stated positively. */
  predicate Acceptable(input: Input, accountIds: set<int>, unitIds: set<int>) {
    && input.transactionDate.Given? && ValidDate(input.transactionDate.value)
    && input.journalDate.Given? && ValidDate(input.journalDate.value)
    && (input.paymentDate.Missing? || (input.paymentDate.Given? && ValidDate(input.paymentDate.value)))
    && input.basAccountId.Given? && input.basAccountId.value in accountIds
    && input.hospitalUnitId.Given? && input.hospitalUnitId.value in unitIds
    && input.txType.Given? && input.txType.value in TxTypes
    && input.amount.Given? && input.amount.value >= 0
    && input.description.Given? && !IsBlank(input.description.value)
    && |input.description.value| <= MaxDescriptionLength
    && (input.proofFile.NoFile?
        || (input.proofFile.UploadedFile?
            && input.proofFile.extension in ProofExtensions
            && input.proofFile.sizeBytes <= MaxProofBytes))
  }

  /** One field's list holds exactly its broken rules. */
  lemma FieldFailuresAreBroken(input: Input, accountIds: set<int>, unitIds: set<int>, fl: Violation)
    ensures fl in FieldFailures(input, accountIds, unitIds, fl.field) <==> Broken(input, accountIds, unitIds, fl.field, fl.rule)
  {
  }

  /** The failure list holds exactly the broken rules. */
  lemma FailuresAreBrokenRules(input: Input, accountIds: set<int>, unitIds: set<int>, fl: Violation)
    ensures fl in Failures(input, accountIds, unitIds) <==> Broken(input, accountIds, unitIds, fl.field, fl.rule)
  {
    FailuresByField(input, accountIds, unitIds, fl);
    FieldFailuresAreBroken(input, accountIds, unitIds, fl);
  }

  /** No listed type name is blank. */
  lemma TypeNamesNotBlank(s: string)
    requires s in TxTypes
    ensures !IsBlank(s)
  {
    assert !IsTrimmed(s[0]);
  }

  /** The type field passes exactly when it names one of the four types. */
  lemma TypePasses(v: Field<string>)
    ensures TypeFailures(v) == [] <==> v.Given? && v.value in TxTypes
  {
    if v.Given? && v.value in TxTypes {
      TypeNamesNotBlank(v.value);
    }
  }

  /** A request passes validation exactly when it is acceptable. */
  lemma {:induction false} PassesIffAcceptable(input: Input, accountIds: set<int>, unitIds: set<int>)
    ensures Failures(input, accountIds, unitIds) == [] <==> Acceptable(input, accountIds, unitIds)
  {
    TypePasses(input.txType);
  }

  /** A failure of a rule `rules()` declares for the field (`nullable` never fails). */
  predicate Declared(fl: Violation) {
    fl.rule in Rules(fl.field) && fl.rule != Nullable
  }

  lemma FieldRulesDeclared(input: Input, accountIds: set<int>, unitIds: set<int>, field: FieldName)
    ensures forall fl :: fl in FieldFailures(input, accountIds, unitIds, field) ==> Declared(fl)
  {
  }

  /** Every failure names a rule that `rules()` declares for its field. */
  lemma {:induction false} FailuresUseDeclaredRules(input: Input, accountIds: set<int>, unitIds: set<int>)
    ensures forall fl :: fl in Failures(input, accountIds, unitIds) ==> Declared(fl)
  {
    forall fl | fl in Failures(input, accountIds, unitIds)
      ensures Declared(fl)
    {
      FailuresByField(input, accountIds, unitIds, fl);
      FieldRulesDeclared(input, accountIds, unitIds, fl.field);
    }
  }

  /** The dates: transaction and journal date are required, the payment date may be absent. */
  lemma DatesRequired(input: Input, accountIds: set<int>, unitIds: set<int>)
    ensures Violation(TransactionDate, Required) in Failures(input, accountIds, unitIds) <==> input.transactionDate.Missing?
    ensures Violation(JournalDate, Required) in Failures(input, accountIds, unitIds) <==> input.journalDate.Missing?
    ensures input.paymentDate.Missing? ==> forall r :: Violation(PaymentDate, r) !in Failures(input, accountIds, unitIds)
  {
    FailuresByField(input, accountIds, unitIds, Violation(TransactionDate, Required));
    FailuresByField(input, accountIds, unitIds, Violation(JournalDate, Required));
    forall r | input.paymentDate.Missing?
      ensures Violation(PaymentDate, r) !in Failures(input, accountIds, unitIds)
    {
      FailuresByField(input, accountIds, unitIds, Violation(PaymentDate, r));
    }
  }

  /** `messages()`: the custom message of a field and rule, if one is given. */
  function CustomMessage(field: FieldName, rule: Rule): Option<string> {
    match (field, rule)
    case (TransactionDate, Required) => Some("Transaction date is required.")
    case (JournalDate, Required) => Some("Journal date is required.")
    case (BasAccountId, Required) => Some("BAS Account is required.")
    case (BasAccountId, Exists) => Some("Selected BAS Account is invalid.")
    case (HospitalUnitId, Required) => Some("Hospital Unit is required.")
    case (HospitalUnitId, Exists) => Some("Selected Hospital Unit is invalid.")
    case (TypeField, Required) => Some("Transaction type is required.")
    case (TypeField, In) => Some("Transaction type must be income, expense, return, or correction.")
    case (Amount, Required) => Some("Amount is required.")
    case (Amount, Numeric) => Some("Amount must be a valid number.")
    case (Amount, Min) => Some("Amount must be greater than or equal to 0.")
    case (Description, Required) => Some("Description is required.")
    case (ProofFile, Mimes) => Some("Proof file must be a PDF or image file.")
    case (ProofFile, Max) => Some("Proof file must not exceed 5MB.")
    case _ => None
  }

  /** A failure's message: the custom one, or the framework's default for that rule. */
  datatype Message = Custom(text: string) | FrameworkDefault(field: FieldName, rule: Rule)

  function MessageFor(fl: Violation): (m: Message)
    ensures m.Custom? <==> CustomMessage(fl.field, fl.rule).Some?
    ensures m.Custom? ==> Some(m.text) == CustomMessage(fl.field, fl.rule)
    ensures m.FrameworkDefault? ==> m == FrameworkDefault(fl.field, fl.rule)
  {
    match CustomMessage(fl.field, fl.rule)
    case Some(text) => Custom(text)
    case None => FrameworkDefault(fl.field, fl.rule)
  }

  /**
   * The message each failure of a request is reported with: the text of its
   * `messages()` entry when there is one (always for `required`), the
   * framework's default for that field and rule otherwise.
   */
  lemma FailureMessages(input: Input, accountIds: set<int>, unitIds: set<int>, fl: Violation)
    requires fl in Failures(input, accountIds, unitIds)
    ensures CustomMessage(fl.field, fl.rule).Some? ==> MessageFor(fl) == Custom(CustomMessage(fl.field, fl.rule).value)
    ensures CustomMessage(fl.field, fl.rule).None? ==> MessageFor(fl) == FrameworkDefault(fl.field, fl.rule)
    ensures fl.rule == Required ==> MessageFor(fl) == Custom(CustomMessage(fl.field, Required).value)
  {
    DefaultMessages(input, accountIds, unitIds, fl);
  }

  /** A negative amount fails `min:0` and is reported with its entry's text. */
  lemma NegativeAmountMessage(input: Input, accountIds: set<int>, unitIds: set<int>)
    requires input.amount.Given? && input.amount.value < 0
    ensures Violation(Amount, Min) in Failures(input, accountIds, unitIds)
    ensures MessageFor(Violation(Amount, Min)) == Custom("Amount must be greater than or equal to 0.")
  {
    FailuresByField(input, accountIds, unitIds, Violation(Amount, Min));
  }

  /** Every custom message belongs to a rule the field declares. */
  lemma CustomMessagesMatchRules(field: FieldName, rule: Rule)
    requires CustomMessage(field, rule).Some?
    ensures rule in Rules(field)
  {
    var rs := Rules(field);
    match rule
    case Required => assert rs[0] == rule;
    case Exists => assert rs[1] == rule;
    case In => assert rs[1] == rule;
    case Numeric => assert rs[1] == rule;
    case Min => assert rs[2] == rule;
    case Mimes => assert rs[2] == rule;
    case Max => assert rs[3] == rule;
  }

  /**
   * The failures a request can draw that fall back to the framework's
   * message are exactly the `date` failures, `description.string`,
   * `description.max` and `proof_file.file`; every `required` failure has
   * its custom message.
   */
  lemma DefaultMessages(input: Input, accountIds: set<int>, unitIds: set<int>, fl: Violation)
    requires fl in Failures(input, accountIds, unitIds)
    ensures MessageFor(fl).FrameworkDefault? <==>
      fl.rule == DateRule || fl.rule == FileRule
      || (fl.field == Description && (fl.rule == StringRule || fl.rule == Max))
    ensures fl.rule == Required ==> MessageFor(fl).Custom?
  {
    FailuresUseDeclaredRules(input, accountIds, unitIds);
    DeclaredDefaults(fl);
  }

  /** Among the declared rules, the ones without a custom message. */
  lemma DeclaredDefaults(fl: Violation)
    requires Declared(fl)
    ensures CustomMessage(fl.field, fl.rule).None? <==>
      fl.rule == DateRule || fl.rule == FileRule
      || (fl.field == Description && (fl.rule == StringRule || fl.rule == Max))
    ensures fl.rule == Required ==> CustomMessage(fl.field, fl.rule).Some?
  {
    match fl.field
    case TransactionDate =>
    case JournalDate =>
    case PaymentDate =>
    case BasAccountId =>
    case HospitalUnitId =>
    case TypeField =>
    case Amount =>
    case Description =>
    case ProofFile =>
  }

  /** The data `validated()` hands to the controller. */
  datatype TxData = TxData(
    transactionDate: Date,
    journalDate: Date,
    paymentDate: Option<Date>,
    basAccountId: int,
    hospitalUnitId: int,
    typeName: string,
    txType: TxType,
    amount: int,
    description: string,
    proofFile: Option<string>)

  function Validated(input: Input, accountIds: set<int>, unitIds: set<int>): (d: TxData)
    requires Failures(input, accountIds, unitIds) == []
    ensures ValidDate(d.transactionDate) && ValidDate(d.journalDate)
    ensures d.paymentDate.Some? ==> ValidDate(d.paymentDate.value)
    ensures d.basAccountId in accountIds && d.hospitalUnitId in unitIds
    ensures d.amount >= 0 && !IsBlank(d.description) && 0 < |d.description| <= MaxDescriptionLength
  {
    PassesIffAcceptable(input, accountIds, unitIds);
    var name := input.txType.value;
    TxData(
      input.transactionDate.value,
      input.journalDate.value,
      if input.paymentDate.Given? then Some(input.paymentDate.value) else None,
      input.basAccountId.value,
      input.hospitalUnitId.value,
      name,
      TxTypeOf(name).value,
      input.amount.value,
      input.description.value,
      if input.proofFile.UploadedFile? then Some(input.proofFile.path) else None)
  }

  /** The validated type name is one of the four types, and the parsed type carries it. */
  lemma ValidatedType(input: Input, accountIds: set<int>, unitIds: set<int>)
    requires Failures(input, accountIds, unitIds) == []
    ensures var d := Validated(input, accountIds, unitIds);
      d.typeName == d.txType.Name() && d.typeName in TxTypes
  {
    PassesIffAcceptable(input, accountIds, unitIds);
  }
}

/**
 * The transaction controller over the `transactions` table: the reference
 * number the store action generates, the store action itself, the locked
 * guards of edit, update and destroy, and the listing.
 */
module TransactionController {
  import opened Wrappers
  import opened Calendar
  import opened Decimal
  import opened Records
  import opened Text
  import opened TransactionNumbers
  import opened Ordering
  import opened TransactionListing
  import opened StoreTransactionRequest

  const PerPage: nat := 15

  /** The generator's `LIKE '{head}%'` test. */
  predicate InBucket(n: string, head: string) {
    Like(n, head + "%")
  }

  /** The row with the largest id among those whose number matches the pattern `head%`, if any. */
  function LatestInBucket(rows: seq<Transaction>, head: string): (r: Option<Transaction>)
    ensures r.Some? ==> r.value in rows && InBucket(r.value.number, head)
    ensures r.Some? ==> forall t :: t in rows && InBucket(t.number, head) ==> t.id <= r.value.id
    ensures r.None? ==> forall t :: t in rows ==> !InBucket(t.number, head)
  {
    if rows == [] then None
    else
      var rest := LatestInBucket(rows[1..], head);
      assert forall t :: t in rows ==> t == rows[0] || t in rows[1..];
      if !InBucket(rows[0].number, head) then rest
      else if rest.Some? && rest.value.id > rows[0].id then rest
      else Some(rows[0])
  }

  /** The latest number of a bucket, as the generator reads it. */
  function LastNumber(rows: seq<Transaction>, head: string): Option<string> {
    match LatestInBucket(rows, head)
    case None => None
    case Some(t) => Some(t.number)
  }

  /** The number the generator produces for a type name against the table `rows`, on day `today`. */
  function NumberFor(rows: seq<Transaction>, txType: string, today: Date): (n: string)
    requires ValidDate(today)
    ensures |n| >= 17 && n[..13] == BucketHead(txType, today)
    ensures LatestInBucket(rows, BucketHead(txType, today)).None? ==> n == BucketHead(txType, today) + "0001"
  {
    EmptyBucketStartsAtOne(txType, today);
    NextNumber(txType, today, LastNumber(rows, BucketHead(txType, today)))
  }

  /** The corrected generator against the table `rows`. */
  function NumberForFixed(rows: seq<Transaction>, txType: string, today: Date): (n: string)
    requires ValidDate(today)
    ensures |n| >= 17 && n[..13] == BucketHead(txType, today)
  {
    NextNumberFixed(txType, today, LastNumber(rows, BucketHead(txType, today)))
  }

  /** The counter the generator reads off a number: the integer cast of its last four characters. */
  function Counter(n: string): int {
    Intval(Last4(n))
  }

  /** The counter the corrected generator reads: the whole text after the bucket head. */
  function CounterFixed(n: string): int {
    Intval(SuffixText(n))
  }

  /** Two numbers in one bucket: their first thirteen characters agree up to case. */
  predicate SameBucket(a: string, b: string) {
    |a| >= 13 && |b| >= 13 && FoldEq(a[..13], b[..13])
  }

  /** Auto-increment ids: rows in insertion order have increasing ids. */
  predicate IdsIncreasing(rows: seq<Transaction>) {
    forall i, j :: 0 <= i < j < |rows| ==> rows[i].id < rows[j].id
  }

  /** Within a bucket, a later row carries a larger counter. */
  predicate CountersFollowIds(rows: seq<Transaction>, counter: string -> int) {
    forall i, j :: 0 <= i < j < |rows| && SameBucket(rows[i].number, rows[j].number) ==>
      counter(rows[i].number) < counter(rows[j].number)
  }

  /** The `unique` index on `transaction_number`. */
  predicate NumbersUnique(rows: seq<Transaction>) {
    forall i, j :: 0 <= i < j < |rows| ==> rows[i].number != rows[j].number
  }

  predicate NumberTaken(rows: seq<Transaction>, n: string) {
    exists i :: 0 <= i < |rows| && rows[i].number == n
  }

  /** The latest counter of the bucket is a four-digit value below 9999 (or the bucket is empty). */
  predicate BelowLimit(rows: seq<Transaction>, head: string) {
    var last := LastNumber(rows, head);
    last.Some? ==> 0 <= Counter(last.value) < 9999
  }

  lemma NoWildcardsConcat(a: string, b: string)
    requires NoWildcards(a) && NoWildcards(b)
    ensures NoWildcards(a + b)
  {
    forall i | 0 <= i < |a + b|
      ensures (a + b)[i] != '%' && (a + b)[i] != '_'
    {
      if i >= |a| {
        assert (a + b)[i] == b[i - |a|];
      }
    }
  }

  lemma DigitsNoWildcards(s: string)
    requires AllDigits(s)
    ensures NoWildcards(s)
  {
    forall i | 0 <= i < |s|
      ensures s[i] != '%' && s[i] != '_'
    {
      assert IsDigit(s[i]);
    }
  }

  lemma PrefixNoWildcards(txType: string)
    ensures NoWildcards(Prefix(txType))
  {
    var p := Prefix(txType);
    assert p == "REV" || p == "EXP" || p == "RET" || p == "COR" || p == "TRX";
  }

  /** A bucket head holds no LIKE wildcard. */
  lemma HeadNoWildcards(txType: string, today: Date)
    requires ValidDate(today)
    ensures NoWildcards(BucketHead(txType, today))
  {
    var p := Prefix(txType);
    var y := Ymd(today);
    PrefixNoWildcards(txType);
    assert NoWildcards("-");
    DigitsNoWildcards(y);
    JoinNoWildcards(p, y);
  }

  lemma JoinNoWildcards(p: string, y: string)
    requires NoWildcards(p) && NoWildcards(y)
    ensures NoWildcards(p + "-" + y + "-")
  {
    assert NoWildcards("-");
    NoWildcardsConcat(p, "-");
    NoWildcardsConcat(p + "-", y);
    NoWildcardsConcat(p + "-" + y, "-");
  }

  /** A number lies in the bucket of a wildcard-free thirteen-character head exactly when it starts with it, up to case. */
  lemma InBucketIff(n: string, head: string)
    requires |head| == 13 && NoWildcards(head)
    ensures InBucket(n, head) <==> |n| >= 13 && FoldEq(n[..13], head)
  {
    WordThenPercent(n, head);
  }

  /** Under the ordering invariant, the latest row of a bucket carries the largest counter in it. */
  lemma LatestHasMaxCounter(rows: seq<Transaction>, head: string, counter: string -> int)
    requires |head| == 13 && NoWildcards(head)
    requires IdsIncreasing(rows) && CountersFollowIds(rows, counter)
    requires LatestInBucket(rows, head).Some?
    ensures forall t :: t in rows && InBucket(t.number, head) ==>
      counter(t.number) <= counter(LatestInBucket(rows, head).value.number)
  {
    var l := LatestInBucket(rows, head).value;
    forall t | t in rows && InBucket(t.number, head)
      ensures counter(t.number) <= counter(l.number)
    {
      var i :| 0 <= i < |rows| && rows[i] == t;
      var j :| 0 <= j < |rows| && rows[j] == l;
      assert i <= j;
      if i < j {
        InBucketIff(t.number, head);
        InBucketIff(l.number, head);
        assert SameBucket(rows[i].number, rows[j].number);
      }
    }
  }

  /**
   * The core of freshness: a number `n` in the bucket `head` whose counter
   * exceeds that of the bucket's latest row exceeds the counter of every row
   * in its bucket, so it is in no row.
   */
  lemma {:induction false} FreshInBucket(rows: seq<Transaction>, head: string, counter: string -> int, n: string)
    requires |head| == 13 && NoWildcards(head)
    requires IdsIncreasing(rows) && CountersFollowIds(rows, counter)
    requires |n| >= 13 && n[..13] == head
    requires LatestInBucket(rows, head).Some? ==> counter(LatestInBucket(rows, head).value.number) < counter(n)
    ensures forall u :: u in rows && SameBucket(u.number, n) ==> counter(u.number) < counter(n)
    ensures !NumberTaken(rows, n)
  {
    InBucketIff(n, head);
    forall u | u in rows && SameBucket(u.number, n)
      ensures counter(u.number) < counter(n)
    {
      InBucketIff(u.number, head);
      assert InBucket(u.number, head);
      LatestHasMaxCounter(rows, head, counter);
    }
    forall i | 0 <= i < |rows|
      ensures rows[i].number != n
    {
      assert rows[i] in rows;
      if SameBucket(rows[i].number, n) {
        assert counter(rows[i].number) < counter(n);
      }
    }
  }

  /** A row appended with an id above every id, in the bucket, becomes the bucket's latest row. */
  lemma {:induction false} LatestAfterAppend(rows: seq<Transaction>, t: Transaction, head: string)
    requires forall u :: u in rows ==> u.id < t.id
    requires InBucket(t.number, head)
    ensures LatestInBucket(rows + [t], head) == Some(t)
  {
    if rows != [] {
      assert (rows + [t])[1..] == rows[1..] + [t];
      assert forall u :: u in rows[1..] ==> u in rows;
      LatestAfterAppend(rows[1..], t, head);
      assert rows[0] in rows;
    }
  }

  /**
   * Sequential creation leaves no gap: on a table with no row in the bucket,
   * the first store gets `0001`, and once that row is in the table the next
   * store gets `0002`.
   */
  lemma FirstTwoOfBucket(rows: seq<Transaction>, txType: string, today: Date, t: Transaction)
    requires ValidDate(today)
    requires forall u :: u in rows ==> !InBucket(u.number, BucketHead(txType, today)) && u.id < t.id
    requires t.number == NumberFor(rows, txType, today)
    ensures t.number == BucketHead(txType, today) + "0001"
    ensures NumberFor(rows + [t], txType, today) == BucketHead(txType, today) + "0002"
  {
    var h := BucketHead(txType, today);
    assert LatestInBucket(rows, h).None?;
    FirstInBucket(h, txType, today);
    HeadNoWildcards(txType, today);
    InBucketIff(t.number, h);
    assert t.number[..13] == h;
    LatestAfterAppend(rows, t, h);
    SecondInBucket(h, txType, today);
  }

  /** Example: the first two expenses of 15 March 2024, stored one after the other. */
  lemma ExampleSequentialExpenses(rows: seq<Transaction>, today: Date, t: Transaction)
    requires today == Date(2024, 3, 15)
    requires forall u :: u in rows ==> !InBucket(u.number, "EXP-20240315-") && u.id < t.id
    requires t.number == NumberFor(rows, "expense", today)
    ensures t.number == "EXP-20240315-0001"
    ensures NumberFor(rows + [t], "expense", today) == "EXP-20240315-0002"
  {
    ExampleHead(today);
    FirstTwoOfBucket(rows, "expense", today, t);
    ExampleLiterals("EXP-20240315-");
  }

  /** Appending a row whose counter exceeds every counter of its bucket keeps the counters ordered. */
  lemma AppendKeepsCounters(rows: seq<Transaction>, t: Transaction, counter: string -> int)
    requires CountersFollowIds(rows, counter)
    requires forall u :: u in rows && SameBucket(u.number, t.number) ==> counter(u.number) < counter(t.number)
    ensures CountersFollowIds(rows + [t], counter)
  {
    var s := rows + [t];
    forall i, j | 0 <= i < j < |s| && SameBucket(s[i].number, s[j].number)
      ensures counter(s[i].number) < counter(s[j].number)
    {
      if j == |rows| {
        assert s[i] == rows[i] && rows[i] in rows;
      } else {
        assert s[i] == rows[i] && s[j] == rows[j];
      }
    }
  }

  /**
   * Freshness of the generator: with the counters ordered by id and the
   * bucket's latest counter below 9999, the new number has the 17-character
   * form, is in no row, and its counter exceeds every counter of its bucket.
   */
  lemma {:induction false} NumberIsFresh(rows: seq<Transaction>, txType: string, today: Date)
    requires ValidDate(today)
    requires IdsIncreasing(rows) && CountersFollowIds(rows, Counter)
    requires BelowLimit(rows, BucketHead(txType, today))
    ensures var n := NumberFor(rows, txType, today);
      && |n| == 17 && !NumberTaken(rows, n)
      && forall u :: u in rows && SameBucket(u.number, n) ==> Counter(u.number) < Counter(n)
  {
    var head := BucketHead(txType, today);
    HeadNoWildcards(txType, today);
    NextNumberIsCompose(txType, today, LastNumber(rows, head));
    FreshAt(rows, head, NumberFor(rows, txType, today));
  }

  /** Freshness for any wildcard-free head: the step of `NumberIsFresh` that does not look inside the head. */
  lemma FreshAt(rows: seq<Transaction>, head: string, n: string)
    requires |head| == 13 && NoWildcards(head)
    requires IdsIncreasing(rows) && CountersFollowIds(rows, Counter) && BelowLimit(rows, head)
    requires n == Compose(head, NextSuffix(LastNumber(rows, head)))
    ensures |n| == 17 && !NumberTaken(rows, n)
    ensures forall u :: u in rows && SameBucket(u.number, n) ==> Counter(u.number) < Counter(n)
  {
    var k := NextSuffix(LastNumber(rows, head));
    RoundTrip(head, k);
    assert n[..13] == head;
    FreshInBucket(rows, head, Counter, n);
  }

  /** Repeated stores keep the counters ordered: appending the generated number as the newest row. */
  lemma StoreKeepsCounters(rows: seq<Transaction>, txType: string, today: Date, t: Transaction)
    requires ValidDate(today)
    requires IdsIncreasing(rows) && CountersFollowIds(rows, Counter)
    requires BelowLimit(rows, BucketHead(txType, today))
    requires t.number == NumberFor(rows, txType, today)
    ensures CountersFollowIds(rows + [t], Counter)
  {
    NumberIsFresh(rows, txType, today);
    AppendKeepsCounters(rows, t, Counter);
  }

  /** The corrected generator is fresh, and keeps the counters ordered, with no bound on the counter. */
  lemma {:induction false} NumberIsFreshFixed(rows: seq<Transaction>, txType: string, today: Date, t: Transaction)
    requires ValidDate(today)
    requires IdsIncreasing(rows) && CountersFollowIds(rows, CounterFixed)
    requires LastNumber(rows, BucketHead(txType, today)).Some? ==>
      CounterFixed(LastNumber(rows, BucketHead(txType, today)).value) >= 0
    requires t.number == NumberForFixed(rows, txType, today)
    ensures !NumberTaken(rows, t.number) && |t.number| >= 17
    ensures CountersFollowIds(rows + [t], CounterFixed)
  {
    var head := BucketHead(txType, today);
    HeadNoWildcards(txType, today);
    assert t.number == Compose(head, NextSuffixFixed(LastNumber(rows, head)));
    FreshFixedAt(rows, head, t);
  }

  /** The corrected generator's freshness for any wildcard-free head. */
  lemma FreshFixedAt(rows: seq<Transaction>, head: string, t: Transaction)
    requires |head| == 13 && NoWildcards(head)
    requires IdsIncreasing(rows) && CountersFollowIds(rows, CounterFixed)
    requires LastNumber(rows, head).Some? ==> CounterFixed(LastNumber(rows, head).value) >= 0
    requires t.number == Compose(head, NextSuffixFixed(LastNumber(rows, head)))
    ensures !NumberTaken(rows, t.number) && |t.number| >= 17
    ensures CountersFollowIds(rows + [t], CounterFixed)
  {
    FreshFixedNumber(rows, head, t.number);
    AppendKeepsCounters(rows, t, CounterFixed);
  }

  /** The corrected number exceeds, in its corrected counter, every number of its bucket, so no row has it. */
  lemma FreshFixedNumber(rows: seq<Transaction>, head: string, n: string)
    requires |head| == 13 && NoWildcards(head)
    requires IdsIncreasing(rows) && CountersFollowIds(rows, CounterFixed)
    requires LastNumber(rows, head).Some? ==> CounterFixed(LastNumber(rows, head).value) >= 0
    requires n == Compose(head, NextSuffixFixed(LastNumber(rows, head)))
    ensures !NumberTaken(rows, n) && |n| >= 17
    ensures forall u :: u in rows && SameBucket(u.number, n) ==> CounterFixed(u.number) < CounterFixed(n)
  {
    var k := NextSuffixFixed(LastNumber(rows, head));
    var pad := PadLeftZeros(IntToString(k), 4);
    RoundTripFixed(head, k);
    assert n == head + pad;
    assert n[..13] == head;
    FreshInBucket(rows, head, CounterFixed, n);
  }

  /** Removing a row keeps ids ordered, numbers unique and counters ordered. */
  lemma RemovePreservesOrder(rows: seq<Transaction>, k: nat, counter: string -> int)
    requires k < |rows|
    ensures var s := rows[..k] + rows[k + 1..];
      && (IdsIncreasing(rows) ==> IdsIncreasing(s))
      && (NumbersUnique(rows) ==> NumbersUnique(s))
      && (CountersFollowIds(rows, counter) ==> CountersFollowIds(s, counter))
      && (forall u :: u in s ==> u in rows)
      && (forall u :: u in rows && u != rows[k] ==> u in s)
  {
    var s := rows[..k] + rows[k + 1..];
    RemovedPositions(rows, k);
    forall i, j | 0 <= i < j < |s|
      ensures var i', j' := (if i < k then i else i + 1), (if j < k then j else j + 1);
        0 <= i' < j' < |rows| && s[i] == rows[i'] && s[j] == rows[j']
    {
    }
    forall u | u in rows && u != rows[k]
      ensures u in s
    {
      var i :| 0 <= i < |rows| && rows[i] == u;
      if i < k {
        assert s[i] == u;
      } else {
        assert s[i - 1] == u;
      }
    }
  }

  /** After removing position k, the rows before it keep their place and the rows after it move up by one. */
  lemma RemovedPositions(rows: seq<Transaction>, k: nat)
    requires k < |rows|
    ensures var s := rows[..k] + rows[k + 1..];
      |s| == |rows| - 1 && forall i :: 0 <= i < |s| ==> s[i] == rows[if i < k then i else i + 1]
  {
  }

  /** Rewriting a row's data, keeping its id and number, keeps ids ordered, numbers unique and counters ordered. */
  lemma ReplacePreservesOrder(rows: seq<Transaction>, k: nat, t: Transaction, counter: string -> int)
    requires k < |rows| && t.id == rows[k].id && t.number == rows[k].number
    ensures var s := rows[k := t];
      && (IdsIncreasing(rows) ==> IdsIncreasing(s))
      && (NumbersUnique(rows) ==> NumbersUnique(s))
      && (CountersFollowIds(rows, counter) ==> CountersFollowIds(s, counter))
  {
  }

  /** Appending a row with a fresh number and the next id keeps ids ordered and numbers unique. */
  lemma AppendPreservesOrder(rows: seq<Transaction>, t: Transaction, nextId: nat)
    requires IdsIncreasing(rows) && NumbersUnique(rows) && !NumberTaken(rows, t.number)
    requires (forall u :: u in rows ==> 1 <= u.id < nextId) && t.id == nextId >= 1
    ensures IdsIncreasing(rows + [t]) && NumbersUnique(rows + [t])
    ensures forall u :: u in rows + [t] ==> 1 <= u.id < nextId + 1
  {
    var s := rows + [t];
    forall i, j | 0 <= i < j < |s|
      ensures s[i].id < s[j].id && s[i].number != s[j].number
    {
      if j == |rows| {
        assert s[i] == rows[i];
        assert rows[i] in rows;
      } else {
        assert s[i] == rows[i] && s[j] == rows[j];
      }
    }
  }

  /** The row position of an id, if any row has it. */
  function Find(rows: seq<Transaction>, id: nat): (r: Option<nat>)
    ensures r.Some? ==> r.value < |rows| && rows[r.value].id == id
    ensures r.None? ==> forall i :: 0 <= i < |rows| ==> rows[i].id != id
  {
    if rows == [] then None
    else if rows[0].id == id then Some(0)
    else match Find(rows[1..], id)
      case None => None
      case Some(i) => Some(i + 1)
  }

  /** The inserted row: the validated data, the generated number, the creator; status defaults to draft. */
  function Created(id: nat, number: string, d: TxData, userId: nat, now: nat): Transaction {
    Transaction(id, number, d.transactionDate, d.journalDate, d.paymentDate, d.basAccountId,
      d.hospitalUnitId, d.txType, d.amount, d.description, d.proofFile, Draft, userId, None, now)
  }

  /** A row rewritten with new data: the data fields change, identity, number, status and authorship stay. */
  function Updated(t: Transaction, d: TxData): (u: Transaction)
    ensures u.id == t.id && u.number == t.number && u.status == t.status
    ensures u.createdBy == t.createdBy && u.approvedBy == t.approvedBy && u.createdAt == t.createdAt
  {
    t.(transactionDate := d.transactionDate, journalDate := d.journalDate, paymentDate := d.paymentDate,
       basAccountId := d.basAccountId, hospitalUnitId := d.hospitalUnitId, txType := d.txType,
       amount := d.amount, description := d.description, proofFile := d.proofFile)
  }

  datatype StoreError = Invalid(failures: seq<Violation>) | DuplicateNumber(number: string)

  /** Why edit, update or destroy does nothing: no such row, or the row is locked (the flash message). */
  datatype Refusal = NotFound | Refused(message: string)

  const EditLocked := "Cannot edit locked transaction."
  const UpdateLocked := "Cannot update locked transaction."
  const DeleteLocked := "Cannot delete locked transaction."

  /** The ordered listing `latest()` may produce: the matching rows, newest first. */
  predicate OrderedListing(ord: seq<Transaction>, rows: seq<Transaction>, f: Filters) {
    multiset(ord) == multiset(Matching(rows, f)) && NewestFirst(ord)
  }

  /** The `transactions` table and its auto-increment counter. */
  class TransactionStore {
    var rows: seq<Transaction>
    var nextId: nat

    predicate Valid()
      reads this
    {
      && nextId >= 1
      && IdsIncreasing(rows)
      && (forall t :: t in rows ==> 1 <= t.id < nextId)
      && NumbersUnique(rows)
    }

    constructor()
      ensures Valid() && rows == [] && nextId == 1
    {
      rows := [];
      nextId := 1;
    }

    /**
     * `generateTransactionNumber`: the prefix of the type, today's bucket,
     * the counter of the bucket's latest row by id plus one, zero-padded.
     */
    method GenerateTransactionNumber(txType: string, today: Date) returns (n: string)
      requires ValidDate(today)
      ensures n == NumberFor(rows, txType, today)
      ensures |n| >= 17 && n[..13] == BucketHead(txType, today)
      ensures IdsIncreasing(rows) && CountersFollowIds(rows, Counter) && BelowLimit(rows, BucketHead(txType, today)) ==>
        !NumberTaken(rows, n) && |n| == 17
    {
      var head := BucketHead(txType, today);
      var latest := LatestInBucket(rows, head);
      var newNumber: int;
      if latest.Some? {
        var lastNumber := Intval(Last4(latest.value.number));
        newNumber := lastNumber + 1;
      } else {
        newNumber := 1;
      }
      n := head + PadLeftZeros(IntToString(newNumber), 4);
      NextNumberIsCompose(txType, today, LastNumber(rows, head));
      if IdsIncreasing(rows) && CountersFollowIds(rows, Counter) && BelowLimit(rows, head) {
        NumberIsFresh(rows, txType, today);
      }
    }

    /**
     * The corrected generator: the counter is read from the whole text after
     * the bucket head, so numbers keep increasing past 9999.
     */
    method GenerateTransactionNumberFixed(txType: string, today: Date) returns (n: string)
      requires ValidDate(today)
      ensures n == NumberForFixed(rows, txType, today)
      ensures n[..13] == BucketHead(txType, today)
      ensures var last := LastNumber(rows, BucketHead(txType, today));
        IdsIncreasing(rows) && CountersFollowIds(rows, CounterFixed) && (last.Some? ==> CounterFixed(last.value) >= 0) ==>
        !NumberTaken(rows, n) && |n| >= 17
    {
      var head := BucketHead(txType, today);
      var latest := LatestInBucket(rows, head);
      var newNumber: int;
      if latest.Some? {
        var lastNumber := Intval(SuffixText(latest.value.number));
        newNumber := lastNumber + 1;
      } else {
        newNumber := 1;
      }
      n := head + PadLeftZeros(IntToString(newNumber), 4);
      var last := LastNumber(rows, head);
      if IdsIncreasing(rows) && CountersFollowIds(rows, CounterFixed) && (last.Some? ==> CounterFixed(last.value) >= 0) {
        HeadNoWildcards(txType, today);
        FreshFixedNumber(rows, head, n);
      }
    }

    /**
     * `store`: validate, generate the number, insert as a draft by the
     * current user. The unique index refuses a number already taken.
     */
    method Store(input: Input, accountIds: set<int>, unitIds: set<int>, userId: nat, today: Date, now: nat)
      returns (r: Result<Transaction, StoreError>)
      requires Valid() && ValidDate(today)
      modifies this
      ensures Valid()
      ensures Failures(input, accountIds, unitIds) != [] ==>
        r == Failure(Invalid(Failures(input, accountIds, unitIds))) && rows == old(rows) && nextId == old(nextId)
      ensures Failures(input, accountIds, unitIds) == [] ==>
        var d := Validated(input, accountIds, unitIds);
        var n := NumberFor(old(rows), d.typeName, today);
        if NumberTaken(old(rows), n) then
          r == Failure(DuplicateNumber(n)) && rows == old(rows) && nextId == old(nextId)
        else
          r == Success(Created(old(nextId), n, d, userId, now))
          && rows == old(rows) + [r.value] && nextId == old(nextId) + 1
      ensures (&& Failures(input, accountIds, unitIds) == []
               && old(CountersFollowIds(rows, Counter))
               && old(BelowLimit(rows, BucketHead(Validated(input, accountIds, unitIds).typeName, today))))
        ==> r.Success? && CountersFollowIds(rows, Counter)
    {
      var failures := Failures(input, accountIds, unitIds);
      if failures != [] {
        return Failure(Invalid(failures));
      }
      var d := Validated(input, accountIds, unitIds);
      var n := GenerateTransactionNumber(d.typeName, today);
      if NumberTaken(rows, n) {
        return Failure(DuplicateNumber(n));
      }
      var t := Created(nextId, n, d, userId, now);
      if CountersFollowIds(rows, Counter) && BelowLimit(rows, BucketHead(d.typeName, today)) {
        StoreKeepsCounters(rows, d.typeName, today, t);
      }
      Create(t);
      r := Success(t);
    }

    /**
     * `Transaction::create`: the insert itself. The row takes the next
     * auto-increment id; its number is not yet taken.
     */
    method Create(t: Transaction)
      requires Valid() && t.id == nextId && !NumberTaken(rows, t.number)
      modifies this
      ensures Valid() && rows == old(rows) + [t] && nextId == old(nextId) + 1
    {
      AppendPreservesOrder(rows, t, nextId);
      rows := rows + [t];
      nextId := nextId + 1;
    }

    /** `edit`: the form of an unlocked row; a locked one is refused. */
    method Edit(id: nat) returns (r: Result<Transaction, Refusal>)
      requires Valid()
      ensures r.Success? <==> exists i :: 0 <= i < |rows| && rows[i].id == id && CanModify(rows[i])
      ensures r.Success? ==> r.value in rows && r.value.id == id && r.value.status != Locked
      ensures r == Failure(Refused(EditLocked)) <==> exists i :: 0 <= i < |rows| && rows[i].id == id && rows[i].status == Locked
      ensures r == Failure(NotFound) <==> forall i :: 0 <= i < |rows| ==> rows[i].id != id
    {
      match Find(rows, id)
      case None =>
        r := Failure(NotFound);
      case Some(k) =>
        if rows[k].status == Locked {
          r := Failure(Refused(EditLocked));
        } else {
          r := Success(rows[k]);
        }
    }

    /** `update`: rewrite an unlocked row's data; a locked row is left as it is. */
    method Update(id: nat, d: TxData) returns (r: Result<Transaction, Refusal>)
      requires Valid()
      modifies this
      ensures Valid() && nextId == old(nextId) && |rows| == |old(rows)|
      ensures match Find(old(rows), id)
        case None => r == Failure(NotFound) && rows == old(rows)
        case Some(k) =>
          if old(rows)[k].status == Locked then r == Failure(Refused(UpdateLocked)) && rows == old(rows)
          else r == Success(Updated(old(rows)[k], d)) && rows == old(rows)[k := r.value]
      ensures forall i :: 0 <= i < |rows| && old(rows)[i].status == Locked ==> rows[i] == old(rows)[i]
      ensures CountersFollowIds(old(rows), Counter) ==> CountersFollowIds(rows, Counter)
      ensures CountersFollowIds(old(rows), CounterFixed) ==> CountersFollowIds(rows, CounterFixed)
    {
      match Find(rows, id)
      case None =>
        r := Failure(NotFound);
      case Some(k) =>
        if rows[k].status == Locked {
          r := Failure(Refused(UpdateLocked));
        } else {
          var t := Updated(rows[k], d);
          ReplacePreservesOrder(rows, k, t, Counter);
          ReplacePreservesOrder(rows, k, t, CounterFixed);
          rows := rows[k := t];
          r := Success(t);
        }
    }

    /** `destroy`: delete an unlocked row; a locked row stays. */
    method Destroy(id: nat) returns (r: Result<Transaction, Refusal>)
      requires Valid()
      modifies this
      ensures Valid() && nextId == old(nextId)
      ensures match Find(old(rows), id)
        case None => r == Failure(NotFound) && rows == old(rows)
        case Some(k) =>
          if old(rows)[k].status == Locked then r == Failure(Refused(DeleteLocked)) && rows == old(rows)
          else r == Success(old(rows)[k]) && rows == old(rows)[..k] + old(rows)[k + 1..]
      ensures forall t :: t in old(rows) && t.status == Locked ==> t in rows
      ensures CountersFollowIds(old(rows), Counter) ==> CountersFollowIds(rows, Counter)
      ensures CountersFollowIds(old(rows), CounterFixed) ==> CountersFollowIds(rows, CounterFixed)
    {
      match Find(rows, id)
      case None =>
        r := Failure(NotFound);
      case Some(k) =>
        if rows[k].status == Locked {
          r := Failure(Refused(DeleteLocked));
        } else {
          RemovePreservesOrder(rows, k, Counter);
          RemovePreservesOrder(rows, k, CounterFixed);
          r := Success(rows[k]);
          rows := rows[..k] + rows[k + 1..];
        }
    }

    /**
     * `index`: the filtered query, newest first, page `page` of fifteen,
     * and the total number of matching rows.
     */
    method Index(f: Filters, page: int) returns (items: seq<Transaction>, total: nat)
      ensures |items| <= PerPage
      ensures forall t :: t in items ==> t in rows && Listed(f, t)
      ensures total == |Matching(rows, f)|
      ensures exists ord :: OrderedListing(ord, rows, f) && items == PageOf(ord, page, PerPage)
    {
      var q := BuildQuery(f);
      var selected := Select(rows, q);
      SelectMatching(rows, q, f);
      var ordered := SortNewestFirst(selected);
      items := PageOf(ordered, page, PerPage);
      total := |selected|;
      assert OrderedListing(ordered, rows, f);
      forall t | t in items
        ensures t in rows && Listed(f, t)
      {
        var i :| 0 <= i < |items| && items[i] == t;
        assert t in multiset(ordered);
      }
    }
  }
}

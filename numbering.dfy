/**
 * The transaction reference number generator of the transaction controller:
 * `{prefix}-{YYYYMMDD}-{suffix}` where the suffix is the last number of the
 * same prefix and day, plus one, zero-padded to four digits.
 */
module TransactionNumbers {
  import opened Wrappers
  import opened Calendar
  import opened Decimal
  import opened Records

  /** The three-letter prefix of a type; any name outside the four types gets `TRX`. */
  function Prefix(txType: string): (p: string)
    ensures |p| == 3
    ensures p == "TRX" <==> TxTypeOf(txType).None?
  {
    if txType == "income" then "REV"
    else if txType == "expense" then "EXP"
    else if txType == "return" then "RET"
    else if txType == "correction" then "COR"
    else "TRX"
  }

  /** The prefix table: each of the four types has its own code, every other name `TRX`. */
  lemma PrefixTable(txType: string)
    ensures TxTypeOf(txType) == Some(Income) ==> Prefix(txType) == "REV"
    ensures TxTypeOf(txType) == Some(Expense) ==> Prefix(txType) == "EXP"
    ensures TxTypeOf(txType) == Some(Return) ==> Prefix(txType) == "RET"
    ensures TxTypeOf(txType) == Some(Correction) ==> Prefix(txType) == "COR"
    ensures TxTypeOf(txType).None? ==> Prefix(txType) == "TRX"
  {
  }

  /** `date('Ymd')` of a date: four digits of year, two of month, two of day. */
  function Ymd(d: Date): (s: string)
    requires ValidDate(d)
    ensures |s| == 8 && AllDigits(s)
  {
    [DigitChar(d.year / 1000), DigitChar(d.year / 100 % 10), DigitChar(d.year / 10 % 10), DigitChar(d.year % 10),
     DigitChar(d.month / 10), DigitChar(d.month % 10),
     DigitChar(d.day / 10), DigitChar(d.day % 10)]
  }

  /** The bucket `{prefix}-{YYYYMMDD}-` the generator searches with LIKE. */
  function BucketHead(txType: string, today: Date): (h: string)
    requires ValidDate(today)
    ensures |h| == 13
  {
    Prefix(txType) + "-" + Ymd(today) + "-"
  }

  /** The head followed by `k` in decimal, zero-padded on the left to at least four digits. */
  function Compose(head: string, k: int): string {
    head + PadLeftZeros(IntToString(k), 4)
  }

  /** The new sequence number: the integer read from the last four characters of the latest number, plus one; 1 when the bucket is empty. */
  function NextSuffix(last: Option<string>): int {
    match last
    case None => 1
    case Some(n) => Intval(Last4(n)) + 1
  }

  /** The generator, given the latest-by-id number of the bucket (if any). */
  function NextNumber(txType: string, today: Date, last: Option<string>): (r: string)
    requires ValidDate(today)
    ensures |r| >= 17 && r[..13] == BucketHead(txType, today)
  {
    var k := NextSuffix(last);
    assert |PadLeftZeros(IntToString(k), 4)| >= 4;
    Compose(BucketHead(txType, today), k)
  }

  /** Round trip: for 0..9999 the last four characters of the composed number cast back to the suffix. */
  lemma RoundTrip(head: string, k: nat)
    requires k <= 9999
    ensures |Compose(head, k)| == |head| + 4
    ensures Last4(Compose(head, k)) == PadLeftZeros(IntToString(k), 4)
    ensures Intval(Last4(Compose(head, k))) == k
  {
    PaddedWidth4(k);
    IntvalOfPadded(k, 4);
    var c := Compose(head, k);
    assert c[|c| - 4..] == PadLeftZeros(IntToString(k), 4);
  }

  /**
   * Proof helper, not a model member: `NextNumber` unfolded into `Compose`
   * of the head and the counter, kept apart so callers stay small.
   */
  lemma NextNumberIsCompose(txType: string, today: Date, last: Option<string>)
    requires ValidDate(today)
    ensures NextNumber(txType, today, last) == Compose(BucketHead(txType, today), NextSuffix(last))
  {
  }

  /** Proof helper, not a model member: a one-digit counter is padded with three zeros. */
  lemma ComposeDigit(h: string, k: nat)
    requires k < 10
    ensures Compose(h, k) == h + ['0', '0', '0', DigitChar(k)]
  {
    assert IntToString(k) == [DigitChar(k)];
    assert Zeros(3) == ['0', '0', '0'];
  }

  /**
   * Proof helper, not a model member: `Compose` at 1, 2 and 10000 as the
   * literal suffixes `0001`, `0002` and `10000`. Evaluating literals is kept
   * out of the larger proofs to keep them within the resource limit.
   */
  lemma ComposeLiterals(h: string)
    ensures Compose(h, 1) == h + "0001"
    ensures Compose(h, 2) == h + "0002"
    ensures Compose(h, 10000) == h + "10000"
  {
    ComposeDigit(h, 1);
    ComposeDigit(h, 2);
    assert IntToString(10000) == "10000";
  }

  /** An empty bucket starts the day at `0001`. */
  lemma EmptyBucketStartsAtOne(txType: string, today: Date)
    requires ValidDate(today)
    ensures NextNumber(txType, today, None) == BucketHead(txType, today) + "0001"
  {
    NextNumberIsCompose(txType, today, None);
    ComposeLiterals(BucketHead(txType, today));
  }

  lemma NextNumberOfDigits(txType: string, today: Date, last: string)
    requires ValidDate(today)
    requires |last| >= 4 && AllDigits(Last4(last))
    ensures NextSuffix(Some(last)) == ValueOf(Last4(last)) + 1
    ensures NextNumber(txType, today, Some(last)) == Compose(BucketHead(txType, today), ValueOf(Last4(last)) + 1)
  {
    IntvalOfDigits(Last4(last));
  }

  /**
   * A latest number ending in the four digits of n < 9999 is followed by the
   * bucket head and n + 1 in exactly four digits, seventeen characters in all.
   */
  lemma {:induction false} NextAfterFourDigits(txType: string, today: Date, last: string)
    requires ValidDate(today)
    requires |last| >= 4 && AllDigits(Last4(last)) && ValueOf(Last4(last)) < 9999
    ensures var r := NextNumber(txType, today, Some(last));
      && |r| == 17
      && r == BucketHead(txType, today) + PadLeftZeros(IntToString(ValueOf(Last4(last)) + 1), 4)
      && Intval(Last4(r)) == ValueOf(Last4(last)) + 1
  {
    NextNumberOfDigits(txType, today, last);
    RoundTrip(BucketHead(txType, today), ValueOf(Last4(last)) + 1);
  }

  lemma ExampleHead(today: Date)
    requires today == Date(2024, 3, 15)
    ensures BucketHead("expense", today) == "EXP-20240315-"
  {
    assert Prefix("expense") == "EXP" by {
      assert "expense" != "income";
    }
    assert Ymd(today) == "20240315";
    assert BucketHead("expense", today) == Prefix("expense") + "-" + Ymd(today) + "-";
    assert "EXP" + "-" + "20240315" + "-" == "EXP-20240315-";
  }

  /** Proof helper, not a model member: the values of the literal digit strings the examples read. */
  lemma ValueOfLiterals()
    ensures AllDigits("0001") && ValueOf("0001") == 1
    ensures AllDigits("0000") && ValueOf("0000") == 0
  {
    ValueOfOne();
    ValueOfZeros(4);
    assert Zeros(4) == "0000";
  }

  /** Proof helper, not a model member: the value of the digit string `0001`. */
  lemma ValueOfOne()
    ensures AllDigits("0001") && ValueOf("0001") == 1
  {
    ValueOfLeadingZeros(3, "1");
    assert Zeros(3) == "000";
    assert Zeros(3) + "1" == "0001";
  }

  /** Example: the first two expenses of 15 March 2024. */
  lemma ExampleExpenseNumbers(today: Date, first: string)
    requires today == Date(2024, 3, 15) && first == "EXP-20240315-0001"
    ensures NextNumber("expense", today, None) == first
    ensures NextNumber("expense", today, Some(first)) == "EXP-20240315-0002"
  {
    var h := "EXP-20240315-";
    ExampleHead(today);
    FirstInBucket(h, "expense", today);
    SecondInBucket(h, "expense", today);
    ExampleLiterals(h);
  }

  /**
   * Proof helper, not a model member: the example's numbers spelled out,
   * the head followed by `0001` and `0002`. String-literal equality is kept
   * in this small lemma to keep the example proofs within the resource limit.
   */
  lemma ExampleLiterals(h: string)
    requires h == "EXP-20240315-"
    ensures h + "0001" == "EXP-20240315-0001" && h + "0002" == "EXP-20240315-0002"
  {
  }

  lemma FirstInBucket(h: string, txType: string, today: Date)
    requires ValidDate(today) && BucketHead(txType, today) == h
    ensures NextNumber(txType, today, None) == h + "0001"
  {
    EmptyBucketStartsAtOne(txType, today);
  }

  lemma SecondInBucket(h: string, txType: string, today: Date)
    requires ValidDate(today) && BucketHead(txType, today) == h
    ensures NextNumber(txType, today, Some(h + "0001")) == h + "0002"
  {
    var first := h + "0001";
    assert Last4(first) == "0001";
    ValueOfLiterals();
    NextNumberOfDigits(txType, today, first);
    ComposeLiterals(h);
  }

  lemma SuffixAfter10000(h: string)
    ensures NextSuffix(Some(h + "10000")) == 1
  {
    assert Last4(h + "10000") == "0000";
    ValueOfLiterals();
    IntvalOfDigits("0000");
  }

  /**
   * As written, the 10000th number of a bucket has a five-digit suffix and the
   * one after it reads `0000` from its last four characters, so the day starts
   * again at `0001`: the number the bucket's first transaction already holds.
   */
  lemma SuffixWrapsAfter9999(txType: string, today: Date)
    requires ValidDate(today)
    ensures var h := BucketHead(txType, today);
      && NextNumber(txType, today, Some(Compose(h, 9999))) == h + "10000"
      && NextNumber(txType, today, Some(h + "10000")) == h + "0001"
      && NextNumber(txType, today, None) == h + "0001"
  {
    var h := BucketHead(txType, today);
    RoundTrip(h, 9999);
    NextNumberOfDigits(txType, today, Compose(h, 9999));
    SuffixAfter10000(h);
    NextNumberIsCompose(txType, today, Some(h + "10000"));
    ComposeLiterals(h);
    EmptyBucketStartsAtOne(txType, today);
  }

  /** The number after the bucket head: everything past the thirteenth character. */
  function SuffixText(n: string): string {
    if |n| >= 13 then n[13..] else ""
  }

  /** Corrected sequence number: cast the whole suffix, not just its last four characters. */
  function NextSuffixFixed(last: Option<string>): int {
    match last
    case None => 1
    case Some(n) => Intval(SuffixText(n)) + 1
  }

  function NextNumberFixed(txType: string, today: Date, last: Option<string>): (r: string)
    requires ValidDate(today)
    ensures |r| >= 17 && r[..13] == BucketHead(txType, today)
  {
    Compose(BucketHead(txType, today), NextSuffixFixed(last))
  }

  /** Round trip of the corrected reading, for every non-negative suffix. */
  lemma RoundTripFixed(head: string, k: nat)
    requires |head| == 13
    ensures SuffixText(Compose(head, k)) == PadLeftZeros(IntToString(k), 4)
    ensures Intval(SuffixText(Compose(head, k))) == k
  {
    IntvalOfPadded(k, 4);
    assert Compose(head, k)[13..] == PadLeftZeros(IntToString(k), 4);
  }

  /** The corrected generator continues past 9999 instead of wrapping. */
  lemma FixedContinuesPast9999(txType: string, today: Date, k: nat)
    requires ValidDate(today)
    ensures var h := BucketHead(txType, today);
      NextNumberFixed(txType, today, Some(Compose(h, k))) == Compose(h, k + 1)
  {
    var h := BucketHead(txType, today);
    FixedStep(h, k);
    assert NextNumberFixed(txType, today, Some(Compose(h, k))) == Compose(h, NextSuffixFixed(Some(Compose(h, k))));
  }

  lemma FixedStep(h: string, k: nat)
    requires |h| == 13
    ensures NextSuffixFixed(Some(Compose(h, k))) == k + 1
  {
    RoundTripFixed(h, k);
  }
}

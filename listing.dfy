/**
 * The filter of the transaction listing. The controller adds where-clauses to
 * one query step by step; the database then evaluates the where-list with
 * AND binding tighter than OR, so `number LIKE ? OR description LIKE ? AND
 * type = ? AND ...` lets a number match through whatever the other filters say.
 */
module TransactionListing {
  import opened Wrappers
  import opened Calendar
  import opened Records
  import opened Text

  /** The listing's request filters; dates arrive already parsed. */
  datatype Filters = Filters(
    search: Option<string>,
    txType: Option<string>,
    status: Option<string>,
    dateFrom: Option<Date>,
    dateTo: Option<Date>)

  /** A request value that is filled: present and not blank. */
  predicate Filled(o: Option<string>) {
    o.Some? && !IsBlank(o.value)
  }

  datatype Boolean = And | Or

  datatype Condition =
    | NumberLike(pattern: string)
    | DescriptionLike(pattern: string)
    | TypeIs(name: string)
    | StatusIs(name: string)
    | DateOnOrAfter(from: Date)
    | DateOnOrBefore(to: Date)

  /** One entry of the query builder's where-list: its connective and its condition. */
  datatype Where = Where(boolean: Boolean, condition: Condition)

  predicate Holds(c: Condition, t: Transaction) {
    match c
    case NumberLike(p) => Like(t.number, p)
    case DescriptionLike(p) => Like(t.description, p)
    case TypeIs(n) => t.txType.Name() == n
    case StatusIs(n) => t.status.Name() == n
    case DateOnOrAfter(d) => DateLe(d, t.transactionDate)
    case DateOnOrBefore(d) => DateLe(t.transactionDate, d)
  }

  /**
   * SQL evaluation of a where-list: the connective of the first entry is
   * dropped, AND-runs form groups and the groups are OR-ed; `done` is the
   * value of the closed groups, `group` that of the open one.
   */
  predicate EvalFrom(q: seq<Where>, t: Transaction, done: bool, group: bool)
    decreases |q|
  {
    if q == [] then done || group
    else if q[0].boolean == Or then EvalFrom(q[1..], t, done || group, Holds(q[0].condition, t))
    else EvalFrom(q[1..], t, done, group && Holds(q[0].condition, t))
  }

  /** A query without where-clauses selects every row. */
  predicate Eval(q: seq<Where>, t: Transaction) {
    q == [] || EvalFrom(q[1..], t, false, Holds(q[0].condition, t))
  }

  predicate AllAnd(q: seq<Where>) {
    forall i :: 0 <= i < |q| ==> q[i].boolean == And
  }

  predicate AllHold(q: seq<Where>, t: Transaction) {
    forall i :: 0 <= i < |q| ==> Holds(q[i].condition, t)
  }

  /** The filters other than the search, each vacuous when not filled. */
  predicate Narrowing(f: Filters, t: Transaction) {
    && (Filled(f.txType) ==> t.txType.Name() == f.txType.value)
    && (Filled(f.status) ==> t.status.Name() == f.status.value)
    && (f.dateFrom.Some? ==> DateLe(f.dateFrom.value, t.transactionDate))
    && (f.dateTo.Some? ==> DateLe(t.transactionDate, f.dateTo.value))
  }

  function SearchPattern(search: string): string {
    "%" + search + "%"
  }

  /**
   * Which transactions the listing shows, in closed form: with a search, a
   * number match alone is enough, a description match must also pass every
   * other filter; without one, exactly the other filters.
   */
  predicate Listed(f: Filters, t: Transaction) {
    if Filled(f.search) then
      Like(t.number, SearchPattern(f.search.value))
      || (Like(t.description, SearchPattern(f.search.value)) && Narrowing(f, t))
    else Narrowing(f, t)
  }

  lemma {:induction false} EvalFromAndRun(q: seq<Where>, t: Transaction, done: bool, group: bool)
    requires AllAnd(q)
    ensures EvalFrom(q, t, done, group) == (done || (group && AllHold(q, t)))
  {
    if q != [] {
      EvalFromAndRun(q[1..], t, done, group && Holds(q[0].condition, t));
      assert AllHold(q, t) == (Holds(q[0].condition, t) && AllHold(q[1..], t)) by {
        if Holds(q[0].condition, t) && AllHold(q[1..], t) {
          forall i | 0 <= i < |q|
            ensures Holds(q[i].condition, t)
          {
            if i > 0 {
              assert q[i] == q[1..][i - 1];
            }
          }
        }
      }
    }
  }

  lemma AllHoldAppend(a: seq<Where>, b: seq<Where>, t: Transaction)
    ensures AllHold(a + b, t) == (AllHold(a, t) && AllHold(b, t))
  {
    if AllHold(a, t) && AllHold(b, t) {
      forall i | 0 <= i < |a + b|
        ensures Holds((a + b)[i].condition, t)
      {
        if i >= |a| {
          assert (a + b)[i] == b[i - |a|];
        }
      }
    }
    if AllHold(a + b, t) {
      forall i | 0 <= i < |a|
        ensures Holds(a[i].condition, t)
      {
        assert (a + b)[i] == a[i];
      }
      forall i | 0 <= i < |b|
        ensures Holds(b[i].condition, t)
      {
        assert (a + b)[|a| + i] == b[i];
      }
    }
  }

  lemma AllAndAppend(a: seq<Where>, b: seq<Where>)
    requires AllAnd(a) && AllAnd(b)
    ensures AllAnd(a + b)
  {
    forall i | 0 <= i < |a + b|
      ensures (a + b)[i].boolean == And
    {
      if i >= |a| {
        assert (a + b)[i] == b[i - |a|];
      }
    }
  }

  lemma AllHoldSingle(w: Where, t: Transaction)
    ensures AllHold([w], t) == Holds(w.condition, t)
  {
    assert [w][0] == w;
  }

  /** A where-list of AND-entries alone selects the rows meeting all of them. */
  lemma EvalAndRun(q: seq<Where>, t: Transaction)
    requires AllAnd(q)
    ensures Eval(q, t) == AllHold(q, t)
  {
    if q != [] {
      EvalFromAndRun(q[1..], t, false, Holds(q[0].condition, t));
      AllHoldAppend([q[0]], q[1..], t);
      assert q == [q[0]] + q[1..];
    }
  }

  /** `A OR B` followed by AND-entries reads `A OR (B AND ...)`. */
  lemma EvalOrThenAndRun(a: Condition, b: Condition, q: seq<Where>, t: Transaction)
    requires AllAnd(q)
    ensures Eval([Where(And, a), Where(Or, b)] + q, t) == (Holds(a, t) || (Holds(b, t) && AllHold(q, t)))
  {
    var w := [Where(And, a), Where(Or, b)] + q;
    assert w[1..][0] == Where(Or, b) && w[1..][1..] == q;
    EvalFromAndRun(q, t, Holds(a, t), Holds(b, t));
  }

  /** The search entries `index` adds: number LIKE, then OR description LIKE. */
  function SearchWheres(f: Filters): seq<Where> {
    if Filled(f.search) then
      [Where(And, NumberLike(SearchPattern(f.search.value))),
       Where(Or, DescriptionLike(SearchPattern(f.search.value)))]
    else []
  }

  function TypeWheres(f: Filters): seq<Where> {
    if Filled(f.txType) then [Where(And, TypeIs(f.txType.value))] else []
  }

  function StatusWheres(f: Filters): seq<Where> {
    if Filled(f.status) then [Where(And, StatusIs(f.status.value))] else []
  }

  function FromWheres(f: Filters): seq<Where> {
    if f.dateFrom.Some? then [Where(And, DateOnOrAfter(f.dateFrom.value))] else []
  }

  function ToWheres(f: Filters): seq<Where> {
    if f.dateTo.Some? then [Where(And, DateOnOrBefore(f.dateTo.value))] else []
  }

  /** The narrowing entries, in the order `index` adds them, all joined by AND. */
  lemma NarrowingWheres(f: Filters, t: Transaction)
    ensures AllAnd(TypeWheres(f) + StatusWheres(f) + FromWheres(f) + ToWheres(f))
    ensures AllHold(TypeWheres(f) + StatusWheres(f) + FromWheres(f) + ToWheres(f), t) == Narrowing(f, t)
  {
    var a, b, c, d := TypeWheres(f), StatusWheres(f), FromWheres(f), ToWheres(f);
    if a != [] { AllHoldSingle(a[0], t); }
    if b != [] { AllHoldSingle(b[0], t); }
    if c != [] { AllHoldSingle(c[0], t); }
    if d != [] { AllHoldSingle(d[0], t); }
    assert AllHold(a, t) == (Filled(f.txType) ==> t.txType.Name() == f.txType.value);
    assert AllHold(b, t) == (Filled(f.status) ==> t.status.Name() == f.status.value);
    assert AllHold(c, t) == (f.dateFrom.Some? ==> DateLe(f.dateFrom.value, t.transactionDate));
    assert AllHold(d, t) == (f.dateTo.Some? ==> DateLe(t.transactionDate, f.dateTo.value));
    AllHoldAppend(a, b, t);
    AllHoldAppend(a + b, c, t);
    AllHoldAppend(a + b + c, d, t);
    AllAndAppend(a, b);
    AllAndAppend(a + b, c);
    AllAndAppend(a + b + c, d);
  }

  /** The where-list `index` builds means `Listed`. */
  lemma QueryMeaning(f: Filters, t: Transaction)
    ensures Eval(SearchWheres(f) + (TypeWheres(f) + StatusWheres(f) + FromWheres(f) + ToWheres(f)), t)
      == Listed(f, t)
  {
    var rest := TypeWheres(f) + StatusWheres(f) + FromWheres(f) + ToWheres(f);
    NarrowingWheres(f, t);
    if Filled(f.search) {
      var pattern := SearchPattern(f.search.value);
      EvalOrThenAndRun(NumberLike(pattern), DescriptionLike(pattern), rest, t);
    } else {
      assert SearchWheres(f) + rest == rest;
      EvalAndRun(rest, t);
    }
  }

  lemma BuiltQueryMeaning(f: Filters, q: seq<Where>)
    requires q == SearchWheres(f) + TypeWheres(f) + StatusWheres(f) + FromWheres(f) + ToWheres(f)
    ensures forall t :: Eval(q, t) == Listed(f, t)
  {
    assert q == SearchWheres(f) + (TypeWheres(f) + StatusWheres(f) + FromWheres(f) + ToWheres(f));
    forall t
      ensures Eval(q, t) == Listed(f, t)
    {
      QueryMeaning(f, t);
    }
  }

  /**
   * `index`: adds the filters to the query one by one, in the controller's
   * order; the where-list it builds selects exactly the `Listed` rows.
   */
  method BuildQuery(f: Filters) returns (q: seq<Where>)
    ensures forall t :: Eval(q, t) == Listed(f, t)
  {
    q := [];
    if Filled(f.search) {
      var pattern := SearchPattern(f.search.value);
      q := q + [Where(And, NumberLike(pattern)), Where(Or, DescriptionLike(pattern))];
    }
    assert q == SearchWheres(f);
    if Filled(f.txType) {
      q := q + [Where(And, TypeIs(f.txType.value))];
    }
    assert q == SearchWheres(f) + TypeWheres(f);
    if Filled(f.status) {
      q := q + [Where(And, StatusIs(f.status.value))];
    }
    assert q == SearchWheres(f) + TypeWheres(f) + StatusWheres(f);
    if f.dateFrom.Some? {
      q := q + [Where(And, DateOnOrAfter(f.dateFrom.value))];
    }
    assert q == SearchWheres(f) + TypeWheres(f) + StatusWheres(f) + FromWheres(f);
    if f.dateTo.Some? {
      q := q + [Where(And, DateOnOrBefore(f.dateTo.value))];
    }
    assert q == SearchWheres(f) + TypeWheres(f) + StatusWheres(f) + FromWheres(f) + ToWheres(f);
    BuiltQueryMeaning(f, q);
  }

  /** A number match lists a transaction whatever its type, status and date. */
  lemma NumberMatchBypassesFilters(f: Filters, t: Transaction)
    requires Filled(f.search) && Like(t.number, SearchPattern(f.search.value))
    ensures Listed(f, t)
  {
  }

  /**
   * Without a search the listing keeps exactly the transactions whose type and
   * status equal the filled filters and whose date lies in the inclusive range.
   */
  lemma NoSearchExactFilters(f: Filters, t: Transaction)
    requires !Filled(f.search)
    ensures Listed(f, t) <==>
      && (Filled(f.txType) ==> t.txType.Name() == f.txType.value)
      && (Filled(f.status) ==> t.status.Name() == f.status.value)
      && (f.dateFrom.Some? ==> DateLe(f.dateFrom.value, t.transactionDate))
      && (f.dateTo.Some? ==> DateLe(t.transactionDate, f.dateTo.value))
  {
  }

  /** A search without wildcard characters is a case-insensitive substring test. */
  lemma SearchIsSubstring(f: Filters, t: Transaction)
    requires Filled(f.search) && NoWildcards(f.search.value)
    ensures Listed(f, t) <==>
      ContainsFolded(t.number, f.search.value)
      || (ContainsFolded(t.description, f.search.value) && Narrowing(f, t))
  {
    ContainsPattern(t.number, f.search.value);
    ContainsPattern(t.description, f.search.value);
  }

  /** The rows of `rows` a where-list selects, in store order. */
  function Select(rows: seq<Transaction>, q: seq<Where>): (r: seq<Transaction>)
    ensures forall t :: t in r <==> t in rows && Eval(q, t)
    ensures |r| <= |rows|
  {
    if rows == [] then []
    else if Eval(q, rows[0]) then [rows[0]] + Select(rows[1..], q)
    else Select(rows[1..], q)
  }

  /** The rows the listing shows, in store order. */
  function Matching(rows: seq<Transaction>, f: Filters): (r: seq<Transaction>)
    ensures forall t :: t in r <==> t in rows && Listed(f, t)
  {
    if rows == [] then []
    else if Listed(f, rows[0]) then [rows[0]] + Matching(rows[1..], f)
    else Matching(rows[1..], f)
  }

  lemma {:induction false} SelectMatching(rows: seq<Transaction>, q: seq<Where>, f: Filters)
    requires forall t :: Eval(q, t) == Listed(f, t)
    ensures Select(rows, q) == Matching(rows, f)
  {
    if rows != [] {
      SelectMatching(rows[1..], q, f);
    }
  }
}

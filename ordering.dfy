/**
 * `latest()` (order by created_at, newest first) and `paginate(n)` as the
 * listing and the dashboard use them.
 */
module Ordering {
  import opened Records

  predicate NewestFirst(s: seq<Transaction>) {
    forall i, j :: 0 <= i < j < |s| ==> s[i].createdAt >= s[j].createdAt
  }

  /** Placing `x` before the rows it is not older than keeps the order newest first. */
  function Insert(x: Transaction, s: seq<Transaction>): (r: seq<Transaction>)
    requires NewestFirst(s)
    ensures NewestFirst(r)
    ensures multiset(r) == multiset(s) + multiset{x}
  {
    if s == [] || x.createdAt >= s[0].createdAt then [x] + s
    else
      var rest := Insert(x, s[1..]);
      InsertBehind(x, s, rest);
      [s[0]] + rest
  }

  /** The step of `Insert` that keeps the head row in front of the rest. */
  lemma InsertBehind(x: Transaction, s: seq<Transaction>, rest: seq<Transaction>)
    requires NewestFirst(s) && s != [] && x.createdAt < s[0].createdAt
    requires NewestFirst(rest) && multiset(rest) == multiset(s[1..]) + multiset{x}
    ensures NewestFirst([s[0]] + rest)
    ensures multiset([s[0]] + rest) == multiset(s) + multiset{x}
  {
    assert s == [s[0]] + s[1..];
    var r := [s[0]] + rest;
    forall i, j | 0 <= i < j < |r|
      ensures r[i].createdAt >= r[j].createdAt
    {
      assert r[j] == rest[j - 1];
      assert r[j] in multiset(rest);
      if r[j] != x {
        assert r[j] in multiset(s[1..]);
        var k :| 0 <= k < |s[1..]| && s[1..][k] == r[j];
        assert s[k + 1] == r[j];
      }
      if i > 0 {
        assert r[i] == rest[i - 1];
      }
    }
  }

  /** One order `latest()` may return: newest first, ties in an order the engine chooses. */
  function SortNewestFirst(s: seq<Transaction>): (r: seq<Transaction>)
    ensures NewestFirst(r)
    ensures multiset(r) == multiset(s)
  {
    if s == [] then []
    else
      assert s == [s[0]] + s[1..];
      Insert(s[0], SortNewestFirst(s[1..]))
  }

  /** The items of page `page` (1-based) of `perPage`; a page number below 1 reads as 1. */
  function PageOf<T>(s: seq<T>, page: int, perPage: nat): (r: seq<T>)
    ensures |r| <= perPage
    ensures var p := if page < 1 then 1 else page;
      forall i :: 0 <= i < |r| ==> (p - 1) * perPage + i < |s| && r[i] == s[(p - 1) * perPage + i]
    ensures var lo := ((if page < 1 then 1 else page) - 1) * perPage;
      |r| == if lo >= |s| then 0 else if lo + perPage <= |s| then perPage else |s| - lo
  {
    var p := if page < 1 then 1 else page;
    var lo := (p - 1) * perPage;
    if lo >= |s| then []
    else if lo + perPage <= |s| then s[lo..lo + perPage]
    else s[lo..]
  }
}

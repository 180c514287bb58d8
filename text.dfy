/**
 * Text predicates the framework and the database apply to request values:
 * blankness (what `filled()` and `required` reject) and SQL LIKE matching
 * with `%` and `_` wildcards under a case-insensitive collation (ASCII case
 * folding).
 */
module Text {

  /** The characters PHP's trim() removes. */
  predicate IsTrimmed(c: char) {
    c == ' ' || c == '\t' || c == '\n' || c == '\r' || c == '\0' || c as int == 11
  }

  /** A string that is empty once trimmed. */
  predicate IsBlank(s: string) {
    forall i :: 0 <= i < |s| ==> IsTrimmed(s[i])
  }

  function Lower(c: char): char {
    if 'A' <= c <= 'Z' then (c as int + 32) as char else c
  }

  /** One text character against one pattern character: `_` matches any character. */
  predicate CharMatches(c: char, p: char) {
    p == '_' || Lower(c) == Lower(p)
  }

  /** `s LIKE p`: `%` matches any run of characters, `_` exactly one. */
  predicate Like(s: string, p: string)
    decreases |s| + |p|
  {
    if p == [] then s == []
    else if p[0] == '%' then Like(s, p[1..]) || (s != [] && Like(s[1..], p))
    else s != [] && CharMatches(s[0], p[0]) && Like(s[1..], p[1..])
  }

  predicate NoWildcards(w: string) {
    forall i :: 0 <= i < |w| ==> w[i] != '%' && w[i] != '_'
  }

  /** Equal up to ASCII case. */
  predicate FoldEq(a: string, b: string) {
    |a| == |b| && forall i :: 0 <= i < |a| ==> Lower(a[i]) == Lower(b[i])
  }

  /** `w` occurs in `s` at position `i`, ignoring ASCII case. */
  predicate OccursAt(s: string, w: string, i: int) {
    0 <= i <= |s| - |w| && FoldEq(s[i..i + |w|], w)
  }

  /** `w` occurs in `s`, ignoring ASCII case. */
  ghost predicate ContainsFolded(s: string, w: string) {
    exists i :: OccursAt(s, w, i)
  }

  lemma {:induction false} PercentMatchesAll(s: string)
    ensures Like(s, "%")
  {
    if s != [] {
      PercentMatchesAll(s[1..]);
    }
  }

  /** A wildcard-free word followed by `%` matches exactly the strings that start with the word. */
  lemma {:induction false} WordThenPercent(s: string, w: string)
    requires NoWildcards(w)
    ensures Like(s, w + "%") <==> |w| <= |s| && FoldEq(s[..|w|], w)
  {
    if w == [] {
      assert w + "%" == "%";
      PercentMatchesAll(s);
    } else {
      var p := w + "%";
      assert p[0] == w[0] && p[1..] == w[1..] + "%";
      if s != [] {
        WordThenPercent(s[1..], w[1..]);
      }
      if s != [] && |w| <= |s| {
        assert FoldEq(s[..|w|], w) <==>
          Lower(s[0]) == Lower(w[0]) && FoldEq(s[1..][..|w| - 1], w[1..]) by {
          if FoldEq(s[..|w|], w) {
            forall i | 0 <= i < |w| - 1
              ensures Lower(s[1..][..|w| - 1][i]) == Lower(w[1..][i])
            {
              assert s[1..][..|w| - 1][i] == s[..|w|][i + 1];
            }
          }
          if Lower(s[0]) == Lower(w[0]) && FoldEq(s[1..][..|w| - 1], w[1..]) {
            forall i | 0 <= i < |w|
              ensures Lower(s[..|w|][i]) == Lower(w[i])
            {
              if i > 0 {
                assert s[..|w|][i] == s[1..][..|w| - 1][i - 1];
              }
            }
          }
        }
      }
    }
  }

  /** A pattern that starts with `%` matches when the rest matches some suffix. */
  lemma {:induction false} PercentThen(s: string, r: string)
    ensures Like(s, "%" + r) <==> exists i :: 0 <= i <= |s| && Like(s[i..], r)
  {
    var p := "%" + r;
    assert p[0] == '%' && p[1..] == r;
    if s == [] {
      assert s[0..] == s;
    } else {
      PercentThen(s[1..], r);
      if Like(s, p) {
        if Like(s, r) {
          assert s[0..] == s;
        } else {
          var i :| 0 <= i <= |s| - 1 && Like(s[1..][i..], r);
          assert s[1..][i..] == s[i + 1..];
        }
      }
      if exists i :: 0 <= i <= |s| && Like(s[i..], r) {
        var i :| 0 <= i <= |s| && Like(s[i..], r);
        if i == 0 {
          assert s[0..] == s;
        } else {
          assert s[1..][i - 1..] == s[i..];
        }
      }
    }
  }

  /** `LIKE '%w%'` for a wildcard-free `w` is a case-insensitive substring test. */
  lemma ContainsPattern(s: string, w: string)
    requires NoWildcards(w)
    ensures Like(s, "%" + w + "%") <==> ContainsFolded(s, w)
  {
    assert "%" + w + "%" == "%" + (w + "%");
    PercentThen(s, w + "%");
    if Like(s, "%" + w + "%") {
      var i :| 0 <= i <= |s| && Like(s[i..], w + "%");
      WordThenPercent(s[i..], w);
      assert s[i..][..|w|] == s[i..i + |w|];
      assert OccursAt(s, w, i);
    }
    if ContainsFolded(s, w) {
      var i :| OccursAt(s, w, i);
      assert s[i..][..|w|] == s[i..i + |w|];
      WordThenPercent(s[i..], w);
    }
  }
}

/** SQLite's `LIKE` operator, which the catalog's search queries use as
    `title LIKE '%' || query || '%'`: `%` matches any run of characters, `_` any one
    character, and other characters match ignoring the case of ASCII letters. There is no
    ESCAPE clause, so a `%` or `_` typed into the search box is a wildcard too. */
module SqlLike {
  import opened Text

  predicate SameIgnoringCase(a: char, b: char) {
    LowerChar(a) == LowerChar(b)
  }

  /** Whether text `t` matches pattern `p`. */
  predicate Like(p: string, t: string)
    decreases |p| + |t|
  {
    if p == [] then t == []
    else if p[0] == '%' then Like(p[1..], t) || (t != [] && Like(p, t[1..]))
    else t != [] && (p[0] == '_' || SameIgnoringCase(p[0], t[0])) && Like(p[1..], t[1..])
  }

  /** The pattern the search methods build from the user's query. */
  function SearchPattern(query: string): string {
    "%" + query + "%"
  }

  predicate NoWildcards(q: string) {
    forall i :: 0 <= i < |q| ==> q[i] != '%' && q[i] != '_'
  }

  lemma {:induction false} PercentMatchesAll(t: string)
    ensures Like("%", t)
  {
    if t != [] {
      PercentMatchesAll(t[1..]);
    }
  }

  /** `q%` matches exactly the texts that start with `q`, ignoring case. */
  lemma {:induction false} PrefixPattern(q: string, t: string)
    requires NoWildcards(q)
    ensures Like(q + "%", t) <==> |q| <= |t| && Lower(t[..|q|]) == Lower(q)
  {
    if q == [] {
      PercentMatchesAll(t);
      assert q + "%" == "%";
    } else {
      assert (q + "%")[1..] == q[1..] + "%";
      if t != [] {
        PrefixPattern(q[1..], t[1..]);
        if |q| <= |t| {
          assert Lower(t[..|q|]) == [LowerChar(t[0])] + Lower(t[1..][..|q| - 1]);
          assert Lower(q) == [LowerChar(q[0])] + Lower(q[1..]);
        }
      }
    }
  }

  predicate MatchesFrom(x: string, t: string, i: int) {
    0 <= i <= |t| && Like(x, t[i..])
  }

  /** `%x` matches exactly the texts that have a suffix matching `x`. */
  lemma {:induction false} LeadingPercent(x: string, t: string)
    ensures Like("%" + x, t) <==> exists i :: MatchesFrom(x, t, i)
    decreases |t|
  {
    var p := "%" + x;
    assert p[1..] == x;
    if t == [] {
      if Like(p, t) {
        assert MatchesFrom(x, t, 0);
      }
    } else {
      LeadingPercent(x, t[1..]);
      if Like(p, t) {
        if Like(x, t) {
          assert MatchesFrom(x, t, 0);
        } else {
          var i :| MatchesFrom(x, t[1..], i);
          assert t[1..][i..] == t[i + 1..];
          assert MatchesFrom(x, t, i + 1);
        }
      }
      if exists i :: MatchesFrom(x, t, i) {
        var i :| MatchesFrom(x, t, i);
        if i > 0 {
          assert t[1..][i - 1..] == t[i..];
          assert MatchesFrom(x, t[1..], i - 1);
        }
      }
    }
  }

  /** `q%` matches the suffix from `i` exactly where the lowered query occurs at `i`. */
  lemma MatchesAtOccurs(q: string, t: string, i: int)
    requires NoWildcards(q) && 0 <= i <= |t|
    ensures MatchesFrom(q + "%", t, i) <==> OccursAt(Lower(t), Lower(q), i)
  {
    PrefixPattern(q, t[i..]);
    if i + |q| <= |t| {
      assert Lower(t)[i..i + |q|] == Lower(t[i..][..|q|]);
    }
  }

  /** Without wildcards in the query, the search pattern is a case-insensitive substring
      test: `title LIKE '%q%'` holds exactly when `q.lower() in title.lower()`. */
  lemma SearchIsSubstring(q: string, t: string)
    requires NoWildcards(q)
    ensures Like(SearchPattern(q), t) <==> Contains(Lower(t), Lower(q))
  {
    var x := q + "%";
    assert SearchPattern(q) == "%" + x;
    LeadingPercent(x, t);
    if Like(SearchPattern(q), t) {
      var i :| MatchesFrom(x, t, i);
      MatchesAtOccurs(q, t, i);
    }
    if Contains(Lower(t), Lower(q)) {
      var i :| 0 <= i <= |Lower(t)| - |Lower(q)| && OccursAt(Lower(t), Lower(q), i);
      MatchesAtOccurs(q, t, i);
    }
  }
}

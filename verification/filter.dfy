/**
 The widget's result list: the recency-ordered articles whose category, title,
 description or tags `includes` the query. `KeepIf` is `Array.prototype.filter`;
 its properties are proved once for any predicate and then read for the query
 predicate `Matches`.
 */
module Filter {
  import opened Articles
  import opened Text
  import Recency

  /** `s.filter(keep)`: the elements of `s` that satisfy `keep`, in order. */
  function KeepIf<T(!new)>(s: seq<T>, keep: T -> bool): (r: seq<T>)
    ensures |r| <= |s|
    ensures forall x :: x in r <==> x in s && keep(x)
  {
    if s == [] then []
    else (if keep(s[0]) then [s[0]] else []) + KeepIf(s[1..], keep)
  }

  /** `sub` is obtained from `s` by deleting elements, keeping the rest in order. */
  ghost predicate IsSubsequence<T>(sub: seq<T>, s: seq<T>)
    decreases |s|
  {
    if s == [] then sub == []
    else
      || (sub != [] && sub[0] == s[0] && IsSubsequence(sub[1..], s[1..]))
      || IsSubsequence(sub, s[1..])
  }

  /** The filter predicate: the query matches one of the four searchable fields. */
  predicate Matches(a: Article, query: string) {
    || Includes(a.category, query) || Includes(a.title, query)
    || Includes(a.description, query) || Includes(a.tags, query)
  }

  /** The articles the widget lists for `query`, taken from the recency-ordered list. */
  function Filtered(sorted: seq<Article>, query: string): seq<Article> {
    KeepIf(sorted, a => Matches(a, query))
  }

  // ---------------------------------------------------------------------
  // `filter`, for any predicate

  lemma {:induction false} KeepIfIsSubsequence<T(!new)>(s: seq<T>, keep: T -> bool)
    ensures IsSubsequence(KeepIf(s, keep), s)
    decreases |s|
  {
    if s != [] {
      KeepIfIsSubsequence(s[1..], keep);
      var r := KeepIf(s, keep);
      if keep(s[0]) {
        assert r[1..] == KeepIf(s[1..], keep);
      } else {
        assert r == KeepIf(s[1..], keep);
      }
    }
  }

  lemma {:induction false} KeepIfCounts<T(!new)>(s: seq<T>, keep: T -> bool, x: T)
    ensures multiset(KeepIf(s, keep))[x] == if keep(x) then multiset(s)[x] else 0
    decreases |s|
  {
    if s != [] {
      KeepIfCounts(s[1..], keep, x);
      assert s == [s[0]] + s[1..];
    }
  }

  lemma {:induction false} KeepIfIdempotent<T(!new)>(s: seq<T>, keep: T -> bool)
    ensures KeepIf(KeepIf(s, keep), keep) == KeepIf(s, keep)
    decreases |s|
  {
    if s != [] {
      KeepIfIdempotent(s[1..], keep);
      var r := KeepIf(s, keep);
      if keep(s[0]) {
        assert r[0] == s[0] && r[1..] == KeepIf(s[1..], keep);
        assert KeepIf(r, keep) == [r[0]] + KeepIf(r[1..], keep);
      } else {
        assert r == KeepIf(s[1..], keep);
      }
    }
  }

  lemma {:induction false} KeepIfAll<T(!new)>(s: seq<T>, keep: T -> bool)
    requires forall i :: 0 <= i < |s| ==> keep(s[i])
    ensures KeepIf(s, keep) == s
    decreases |s|
  {
    if s != [] {
      KeepIfAll(s[1..], keep);
    }
  }

  lemma {:induction false} KeepIfEmptyIff<T(!new)>(s: seq<T>, keep: T -> bool)
    ensures KeepIf(s, keep) == [] <==> forall i :: 0 <= i < |s| ==> !keep(s[i])
  {
    var r := KeepIf(s, keep);
    if r != [] {
      assert r[0] in r;
    } else {
      forall i | 0 <= i < |s| ensures !keep(s[i]) {
        assert s[i] in s;
      }
    }
  }

  lemma {:induction false} KeepIfKeepsRecency(s: seq<Article>, keep: Article -> bool)
    requires Recency.NonIncreasing(s)
    ensures Recency.NonIncreasing(KeepIf(s, keep))
    decreases |s|
  {
    if s != [] {
      KeepIfKeepsRecency(s[1..], keep);
      forall b | b in KeepIf(s[1..], keep)
        ensures s[0].modified >= b.modified
      {
        var n :| 0 <= n < |s[1..]| && s[1..][n] == b;
        assert s[n + 1] == b;
      }
    }
  }

  // ---------------------------------------------------------------------
  // The widget's filter

  /** An article is listed iff it is in the list and the query matches one of its fields. */
  lemma FilteredMembership(sorted: seq<Article>, query: string, a: Article)
    ensures a in Filtered(sorted, query) <==> a in sorted && Matches(a, query)
  {
    assert (a => Matches(a, query))(a) == Matches(a, query);
  }

  /** Nothing is listed iff no article matches. */
  lemma FilteredEmptyIff(sorted: seq<Article>, query: string)
    ensures Filtered(sorted, query) == [] <==> forall a :: a in sorted ==> !Matches(a, query)
  {
    KeepIfEmptyIff(sorted, a => Matches(a, query));
    assert forall i :: 0 <= i < |sorted| ==> (a => Matches(a, query))(sorted[i]) == Matches(sorted[i], query);
  }

  /** The listed articles keep the order of the recency list; every matching
      article is listed as often as it occurs, and nothing else is. */
  lemma FilteredSpec(sorted: seq<Article>, query: string, a: Article)
    ensures IsSubsequence(Filtered(sorted, query), sorted)
    ensures multiset(Filtered(sorted, query))[a] == if Matches(a, query) then multiset(sorted)[a] else 0
  {
    KeepIfIsSubsequence(sorted, a => Matches(a, query));
    KeepIfCounts(sorted, b => Matches(b, query), a);
  }

  /** Filtering the listed articles again by the same query changes nothing. */
  lemma FilteredIdempotent(sorted: seq<Article>, query: string)
    ensures Filtered(Filtered(sorted, query), query) == Filtered(sorted, query)
  {
    KeepIfIdempotent(sorted, a => Matches(a, query));
  }

  /** An empty or whitespace-only query lists every article. */
  lemma FilteredBlankQuery(sorted: seq<Article>, query: string)
    requires AllSpace(query)
    ensures Filtered(sorted, query) == sorted
  {
    forall i | 0 <= i < |sorted|
      ensures Matches(sorted[i], query)
    {
      IncludesBlank(sorted[i].category, query);
    }
    KeepIfAll(sorted, a => Matches(a, query));
  }

  /** Filtering a newest-first list leaves it newest first. */
  lemma FilteredKeepsRecency(sorted: seq<Article>, query: string)
    requires Recency.NonIncreasing(sorted)
    ensures Recency.NonIncreasing(Filtered(sorted, query))
  {
    KeepIfKeepsRecency(sorted, a => Matches(a, query));
  }
}

/**
 The "Recently updated" shortcut list:
 `[...new Set(sorted.map(a => a.category))].slice(0, 5)`. A `Set` keeps its
 elements in the order they were first added, so the list holds the first five
 distinct categories of the recency-ordered articles, in order of first appearance.
 */
module Categories {
  import opened Articles

  /** How many shortcuts the widget shows at most. */
  const MaxShortcuts: nat := 5

  function CategoriesOf(s: seq<Article>): (r: seq<string>)
    ensures |r| == |s| && forall i :: 0 <= i < |s| ==> r[i] == s[i].category
  {
    seq(|s|, i requires 0 <= i < |s| => s[i].category)
  }

  predicate NoDuplicates(s: seq<string>) {
    forall i, j :: 0 <= i < j < |s| ==> s[i] != s[j]
  }

  /** The index of the first occurrence of `c` in `s`. */
  function FirstIndex(s: seq<string>, c: string): (k: nat)
    requires c in s
    ensures k < |s| && s[k] == c
    ensures forall i :: 0 <= i < k ==> s[i] != c
  {
    if s[0] == c then 0 else 1 + FirstIndex(s[1..], c)
  }

  /** The elements of `new Set(s)` in iteration order: `s` with every repeat of an
      earlier element dropped. */
  function Distinct(s: seq<string>): (d: seq<string>)
    ensures NoDuplicates(d)
    ensures forall c :: c in d <==> c in s
  {
    if s == [] then []
    else
      var d := Distinct(s[..|s| - 1]);
      var last := s[|s| - 1];
      if last in d then d else d + [last]
  }

  /** `.slice(0, 5)` of the distinct categories of the recency-ordered list. */
  function RecentCategories(sorted: seq<Article>): seq<string> {
    var d := Distinct(CategoriesOf(sorted));
    if |d| <= MaxShortcuts then d else d[..MaxShortcuts]
  }

  // ---------------------------------------------------------------------

  lemma FirstIndexOfPrefix(s: seq<string>, n: nat, c: string)
    requires n <= |s| && c in s[..n]
    ensures FirstIndex(s[..n], c) == FirstIndex(s, c)
  {
    var k := FirstIndex(s[..n], c);
    assert s[k] == c;
  }

  /** `Distinct` lists its elements in the order they first occur in `s`. */
  lemma {:induction false} DistinctInFirstOccurrenceOrder(s: seq<string>)
    ensures forall i, j :: 0 <= i < j < |Distinct(s)| ==>
      FirstIndex(s, Distinct(s)[i]) < FirstIndex(s, Distinct(s)[j])
  {
    if s != [] {
      var init := s[..|s| - 1];
      var d := Distinct(init);
      DistinctInFirstOccurrenceOrder(init);
      forall c | c in d
        ensures FirstIndex(s, c) == FirstIndex(init, c) < |init|
      {
        FirstIndexOfPrefix(s, |init|, c);
      }
      var last := s[|s| - 1];
      if last !in d {
        assert last !in init;
        assert FirstIndex(s, last) == |init|;
      }
    }
  }

  /** The shortcut list: at most five entries, no repeats, each the category of some
      article, in order of first appearance in the recency order, and no category
      left out that first appears before one that is listed; fewer than five
      entries only when every category is listed. */
  lemma RecentCategoriesSpec(sorted: seq<Article>)
    ensures |RecentCategories(sorted)| <= MaxShortcuts
    ensures NoDuplicates(RecentCategories(sorted))
    ensures forall c :: c in RecentCategories(sorted) ==> exists a :: a in sorted && a.category == c
    ensures forall i, j :: 0 <= i < j < |RecentCategories(sorted)| ==>
      FirstIndex(CategoriesOf(sorted), RecentCategories(sorted)[i])
        < FirstIndex(CategoriesOf(sorted), RecentCategories(sorted)[j])
    ensures forall a, c :: a in sorted && c in RecentCategories(sorted) && a.category !in RecentCategories(sorted) ==>
      FirstIndex(CategoriesOf(sorted), c) < FirstIndex(CategoriesOf(sorted), a.category)
    ensures |RecentCategories(sorted)| < MaxShortcuts ==>
      forall a :: a in sorted ==> a.category in RecentCategories(sorted)
  {
    var cs := CategoriesOf(sorted);
    var d := Distinct(cs);
    var r := RecentCategories(sorted);
    DistinctInFirstOccurrenceOrder(cs);
    assert r == d[..|r|];
    forall c | c in r
      ensures exists a :: a in sorted && a.category == c
    {
      var k := FirstIndex(cs, c);
      assert sorted[k] in sorted && sorted[k].category == c;
    }
    forall a, c | a in sorted && c in r && a.category !in r
      ensures FirstIndex(cs, c) < FirstIndex(cs, a.category)
    {
      var n :| 0 <= n < |sorted| && sorted[n] == a;
      assert cs[n] == a.category;
      assert a.category in d;
      var i :| 0 <= i < |r| && r[i] == c;
      var j :| 0 <= j < |d| && d[j] == a.category;
      assert j >= |r|;
    }
    if |r| < MaxShortcuts {
      forall a | a in sorted
        ensures a.category in r
      {
        var n :| 0 <= n < |sorted| && sorted[n] == a;
        assert cs[n] == a.category;
      }
    }
  }
}

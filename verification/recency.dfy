/**
 The recency order of the search widget: `articles.sort((a, b) => b.modified - a.modified)`,
 a stable sort, in place, newest first. `SortByRecency` is the order as a function
 (insertion sort, each new element placed after every element that is at least as
 recent); `SortByModifiedDesc` is the in-place sort, proved to produce it.
 */
module Recency {
  import opened Articles

  /** Newest first: timestamps never increase along `s`. */
  predicate NonIncreasing(s: seq<Article>) {
    forall i, j :: 0 <= i < j < |s| ==> s[i].modified >= s[j].modified
  }

  /** The articles of `s` stamped `t`, in their order in `s`. */
  function StampedAt(s: seq<Article>, t: int): seq<Article> {
    if s == [] then []
    else (if s[0].modified == t then [s[0]] else []) + StampedAt(s[1..], t)
  }

  /** Where a stable insertion puts `x`: right after the last element, scanning
      from the end, that is at least as recent as `x`. */
  function InsertPos(s: seq<Article>, x: Article): (k: nat)
    ensures k <= |s|
  {
    if s == [] || s[|s| - 1].modified >= x.modified then |s|
    else InsertPos(s[..|s| - 1], x)
  }

  /** Everything before the insertion position is at least as recent as `x`
      (when `s` is newest first), everything after it strictly older. */
  lemma {:induction false} InsertPosSplits(s: seq<Article>, x: Article)
    ensures InsertPos(s, x) > 0 ==> s[InsertPos(s, x) - 1].modified >= x.modified
    ensures forall i :: InsertPos(s, x) <= i < |s| ==> s[i].modified < x.modified
  {
    if s != [] && s[|s| - 1].modified < x.modified {
      InsertPosSplits(s[..|s| - 1], x);
    }
  }

  function Insert(s: seq<Article>, x: Article): seq<Article> {
    var k := InsertPos(s, x);
    s[..k] + [x] + s[k..]
  }

  /** The list the widget shows: `s` ordered newest first, ties kept in input order. */
  function SortByRecency(s: seq<Article>): seq<Article> {
    if s == [] then []
    else Insert(SortByRecency(s[..|s| - 1]), s[|s| - 1])
  }

  // ---------------------------------------------------------------------
  // The in-place sort

  /** Moves `a[i]` left past the strictly older elements at the end of the
      prefix `a[..i]`, shifting those right by one. */
  method InsertAt(a: array<Article>, i: nat)
    requires i < a.Length
    modifies a
    ensures a[..] == Insert(old(a[..i]), old(a[i])) + old(a[i + 1..])
  {
    ghost var p, tail := a[..i], a[i + 1..];
    var x := a[i];
    var j := ShiftOlder(a, i, x);
    a[j] := x;
    InsertPosIs(p, x, j);
    ShiftedIsInsert(a, p, x, tail, j);
  }

  /** Shifts the elements of `a[..i]` strictly older than `x`, from the end of the
      prefix, one place right, and returns the hole they leave. */
  method ShiftOlder(a: array<Article>, i: nat, x: Article) returns (j: nat)
    requires i < a.Length
    modifies a
    ensures j <= i
    ensures j > 0 ==> old(a[j - 1]).modified >= x.modified
    ensures forall m :: j <= m < i ==> old(a[m]).modified < x.modified
    ensures forall m :: 0 <= m < j ==> a[m] == old(a[m])
    ensures forall m :: j < m <= i ==> a[m] == old(a[m - 1])
    ensures forall m :: i < m < a.Length ==> a[m] == old(a[m])
  {
    j := i;
    while j > 0 && a[j - 1].modified < x.modified
      invariant 0 <= j <= i
      invariant forall m :: 0 <= m < j ==> a[m] == old(a[m])
      invariant forall m :: j < m <= i ==> a[m] == old(a[m - 1])
      invariant forall m :: i < m < a.Length ==> a[m] == old(a[m])
      invariant forall m :: j <= m < i ==> old(a[m]).modified < x.modified
    {
      a[j] := a[j - 1];
      j := j - 1;
    }
  }

  /** The position the shifting loop stops at is the insertion position. */
  lemma {:induction false} InsertPosIs(p: seq<Article>, x: Article, j: nat)
    requires j <= |p|
    requires j > 0 ==> p[j - 1].modified >= x.modified
    requires forall m :: j <= m < |p| ==> p[m].modified < x.modified
    ensures InsertPos(p, x) == j
  {
    if j < |p| {
      InsertPosIs(p[..|p| - 1], x, j);
    }
  }

  /** What the shifting loop leaves behind is the insertion. */
  lemma ShiftedIsInsert(a: array<Article>, p: seq<Article>, x: Article, tail: seq<Article>, j: nat)
    requires j == InsertPos(p, x)
    requires a.Length == |p| + 1 + |tail|
    requires forall m :: 0 <= m < j ==> a[m] == p[m]
    requires a[j] == x
    requires forall m :: j < m <= |p| ==> a[m] == p[m - 1]
    requires forall m :: |p| < m < a.Length ==> a[m] == tail[m - |p| - 1]
    ensures a[..] == Insert(p, x) + tail
  {
    var q := p[..j] + [x] + p[j..] + tail;
    forall m | 0 <= m < a.Length
      ensures a[m] == q[m]
    {
      if m > |p| {
        assert q[m] == tail[m - |p| - 1];
      } else if m > j {
        assert q[m] == p[j..][m - j - 1];
      } else if m == j {
        assert q[m] == x;
      } else {
        assert q[m] == p[..j][m];
      }
    }
  }

  /** `articles.sort(...)` with the newest-first comparator. */
  method SortByModifiedDesc(a: array<Article>)
    modifies a
    ensures a[..] == SortByRecency(old(a[..]))
  {
    ghost var s := a[..];
    var i := 0;
    while i < a.Length
      invariant 0 <= i <= a.Length
      invariant a[..] == SortByRecency(s[..i]) + s[i..]
    {
      SplitAt(a[..], SortByRecency(s[..i]), s[i..]);
      InsertAt(a, i);
      SortStep(s, i);
      i := i + 1;
    }
    assert s[..a.Length] == s;
  }

  /** Reading a concatenation back at the seam. */
  lemma SplitAt(x: seq<Article>, p: seq<Article>, rest: seq<Article>)
    requires x == p + rest && rest != []
    ensures x[..|p|] == p && x[|p|] == rest[0] && x[|p| + 1..] == rest[1..]
  {
  }

  /** One more step of the insertion sort. */
  lemma SortStep(s: seq<Article>, i: nat)
    requires i < |s|
    ensures SortByRecency(s[..i + 1]) == Insert(SortByRecency(s[..i]), s[i])
    ensures s[i..][1..] == s[i + 1..]
  {
    assert s[..i + 1][..i] == s[..i];
  }

  // ---------------------------------------------------------------------
  // Properties of the order

  lemma InsertPermutes(s: seq<Article>, x: Article)
    ensures multiset(Insert(s, x)) == multiset(s) + multiset{x}
  {
    var k := InsertPos(s, x);
    assert s == s[..k] + s[k..];
  }

  /** The sorted list holds exactly the input articles, each as often. */
  lemma {:induction false} SortPermutes(s: seq<Article>)
    ensures multiset(SortByRecency(s)) == multiset(s)
  {
    if s != [] {
      var init := s[..|s| - 1];
      SortPermutes(init);
      InsertPermutes(SortByRecency(init), s[|s| - 1]);
      assert s == init + [s[|s| - 1]];
    }
  }

  lemma InsertKeepsOrder(s: seq<Article>, x: Article)
    requires NonIncreasing(s)
    ensures NonIncreasing(Insert(s, x))
  {
    InsertPosSplits(s, x);
  }

  /** The sorted list is newest first. */
  lemma {:induction false} SortIsNonIncreasing(s: seq<Article>)
    ensures NonIncreasing(SortByRecency(s))
  {
    if s != [] {
      SortIsNonIncreasing(s[..|s| - 1]);
      InsertKeepsOrder(SortByRecency(s[..|s| - 1]), s[|s| - 1]);
    }
  }

  lemma {:induction false} StampedAtAppend(a: seq<Article>, b: seq<Article>, t: int)
    ensures StampedAt(a + b, t) == StampedAt(a, t) + StampedAt(b, t)
    decreases |a|
  {
    if a == [] {
      assert a + b == b;
    } else {
      StampedAtAppend(a[1..], b, t);
      var head := if a[0].modified == t then [a[0]] else [];
      calc {
        StampedAt(a + b, t);
        head + StampedAt((a + b)[1..], t);
        { assert (a + b)[1..] == a[1..] + b; }
        head + (StampedAt(a[1..], t) + StampedAt(b, t));
        (head + StampedAt(a[1..], t)) + StampedAt(b, t);
      }
    }
  }

  lemma {:induction false} StampedAtOlder(s: seq<Article>, t: int)
    requires forall i :: 0 <= i < |s| ==> s[i].modified < t
    ensures StampedAt(s, t) == []
    decreases |s|
  {
    if s != [] {
      StampedAtOlder(s[1..], t);
    }
  }

  lemma StampedAtAround(front: seq<Article>, x: Article, back: seq<Article>, t: int)
    ensures StampedAt(front + [x] + back, t) == StampedAt(front, t) + StampedAt([x], t) + StampedAt(back, t)
    ensures StampedAt(front + back, t) == StampedAt(front, t) + StampedAt(back, t)
  {
    StampedAtAppend(front + [x], back, t);
    StampedAtAppend(front, [x], t);
    StampedAtAppend(front, back, t);
  }

  lemma BackIsOlder(s: seq<Article>, x: Article)
    ensures StampedAt(s[InsertPos(s, x)..], x.modified) == []
  {
    InsertPosSplits(s, x);
    StampedAtOlder(s[InsertPos(s, x)..], x.modified);
  }

  lemma InsertStable(s: seq<Article>, x: Article, t: int)
    ensures StampedAt(Insert(s, x), t) == StampedAt(s, t) + StampedAt([x], t)
  {
    var k := InsertPos(s, x);
    var front, back := s[..k], s[k..];
    assert s == front + back;
    assert Insert(s, x) == front + [x] + back;
    StampedAtAround(front, x, back, t);
    if x.modified == t {
      BackIsOlder(s, x);
    } else {
      assert StampedAt([x], t) == [];
    }
  }

  /** Stability: for every timestamp, the articles carrying it keep their input order. */
  lemma {:induction false} SortIsStable(s: seq<Article>, t: int)
    ensures StampedAt(SortByRecency(s), t) == StampedAt(s, t)
  {
    if s != [] {
      var init, last := s[..|s| - 1], s[|s| - 1];
      SortIsStable(init, t);
      InsertStable(SortByRecency(init), last, t);
      assert s == init + [last];
      StampedAtAppend(init, [last], t);
    }
  }

  /** A list that is already newest first is left as it is. */
  lemma {:induction false} SortOfNonIncreasing(s: seq<Article>)
    requires NonIncreasing(s)
    ensures SortByRecency(s) == s
  {
    if s != [] {
      var init := s[..|s| - 1];
      SortOfNonIncreasing(init);
      InsertPosIs(init, s[|s| - 1], |init|);
      assert InsertPos(init, s[|s| - 1]) == |init|;
      assert init + [s[|s| - 1]] == s;
    }
  }

  /** Sorting a second time with the same comparator changes nothing. */
  lemma SortIdempotent(s: seq<Article>)
    ensures SortByRecency(SortByRecency(s)) == SortByRecency(s)
  {
    SortIsNonIncreasing(s);
    SortOfNonIncreasing(SortByRecency(s));
  }
}

/**
 The search widget as a component: the state React keeps for it (`query`, the
 `lastKeyDown` ref, clicks on the combobox button, the pages it navigated to)
 and what one render shows. `Step` is the state change of each event handler;
 `SearchWidget` holds that state in fields and its handler methods are proved to
 perform `Step`.
 */
module Widget {
  import opened Wrappers
  import opened Articles
  import opened Text
  import Recency
  import Categories
  import opened Filter

  // ---------------------------------------------------------------------
  // What a render shows

  /** The shortcut categories, whether "No articles found" is shown, and the options listed. */
  datatype View = View(recent: seq<string>, showNotFound: bool, options: seq<Article>)

  /** The render for the recency-ordered list `sorted` and the current `query`;
      a non-empty string is truthy, so `!!query` is `query != ""`. */
  function ViewOf(sorted: seq<Article>, query: string): View {
    var f := Filtered(sorted, query);
    View(Categories.RecentCategories(sorted), |f| == 0 && query != "", if |f| > 0 then f else [])
  }

  // ---------------------------------------------------------------------
  // The event handlers

  datatype State = State(
    query: string,
    lastKeyDown: Option<string>,
    buttonClicks: nat,
    navigations: seq<string>)

  /** The initial state: an empty query, no key pressed yet, nothing clicked or visited. */
  const Initial := State("", None, 0, [])

  datatype Event =
    | KeyPressed(key: string)        // the input's onKeyDown
    | Typed(text: string)            // the input's onChange
    | Selected(value: Article)       // the combobox's onChange, for a non-null value
    | OptionClicked(article: Article) // an option's onClick
    | CategoryClicked(category: string) // a shortcut button's onClick
    | PanelClosed                    // the transition's afterLeave

  /** The state after one handler runs. Only a click on an option, or a selection of
      an article with a non-empty url right after Enter, navigates; keys never
      change the query. */
  function Step(st: State, e: Event): (r: State)
    ensures r.navigations != st.navigations <==>
      e.OptionClicked? || (e.Selected? && e.value.url != "" && st.lastKeyDown == Some("Enter"))
    ensures r.query != st.query ==> e.Typed? || e.CategoryClicked? || e.PanelClosed?
  {
    match e
    case KeyPressed(key) => st.(lastKeyDown := Some(key))
    case Typed(text) => st.(query := text)
    case Selected(value) =>
      if value.url != "" && st.lastKeyDown == Some("Enter")
      then st.(navigations := st.navigations + [value.url])
      else st
    case OptionClicked(article) => st.(navigations := st.navigations + [article.url])
    case CategoryClicked(category) => st.(query := category, buttonClicks := st.buttonClicks + 1)
    case PanelClosed => st.(query := "")
  }

  /** The state after a sequence of events, handled one at a time. */
  function Run(st: State, es: seq<Event>): State
    decreases |es|
  {
    if es == [] then st else Run(Step(st, es[0]), es[1..])
  }

  class SearchWidget {
    /** The `articles` prop: the array the render sorts in place. */
    const articles: array<Article>
    var query: string
    var lastKeyDown: Option<string>
    var buttonClicks: nat
    var navigations: seq<string>

    function Snapshot(): State
      reads this
    {
      State(query, lastKeyDown, buttonClicks, navigations)
    }

    constructor (articles: array<Article>)
      ensures this.articles == articles
      ensures Snapshot() == Initial
    {
      this.articles := articles;
      query := "";
      lastKeyDown := None;
      buttonClicks := 0;
      navigations := [];
    }

    /** One render: the prop array is sorted newest first, then sorted again before
        the categories are collected, and the view is computed from it. */
    method Render() returns (v: View)
      modifies articles
      ensures articles[..] == Recency.SortByRecency(old(articles[..]))
      ensures v == ViewOf(articles[..], query)
    {
      ghost var s := articles[..];
      Recency.SortByModifiedDesc(articles);
      Recency.SortByModifiedDesc(articles);
      Recency.SortIdempotent(s);
      v := ViewOf(articles[..], query);
    }

    method OnKeyDown(key: string)
      modifies this
      ensures Snapshot() == Step(old(Snapshot()), KeyPressed(key))
    {
      lastKeyDown := Some(key);
    }

    method OnInputChange(text: string)
      modifies this
      ensures Snapshot() == Step(old(Snapshot()), Typed(text))
    {
      query := text;
    }

    method OnComboboxChange(value: Article)
      modifies this
      ensures Snapshot() == Step(old(Snapshot()), Selected(value))
    {
      if value.url != "" && lastKeyDown == Some("Enter") {
        navigations := navigations + [value.url];
      }
    }

    method OnOptionClick(article: Article)
      modifies this
      ensures Snapshot() == Step(old(Snapshot()), OptionClicked(article))
    {
      navigations := navigations + [article.url];
    }

    method OnCategoryClick(category: string)
      modifies this
      ensures Snapshot() == Step(old(Snapshot()), CategoryClicked(category))
    {
      query := category;
      buttonClicks := buttonClicks + 1;
    }

    method AfterLeave()
      modifies this
      ensures Snapshot() == Step(old(Snapshot()), PanelClosed)
    {
      query := "";
    }
  }

  // ---------------------------------------------------------------------
  // Properties of the view

  /** "No articles found" is shown iff the query is non-empty and no article matches it. */
  lemma NotFoundIff(sorted: seq<Article>, query: string)
    ensures ViewOf(sorted, query).showNotFound <==>
      query != "" && forall a :: a in sorted ==> !Matches(a, query)
  {
    FilteredEmptyIff(sorted, query);
  }

  /** The options are listed iff some article matches; they are exactly the matching
      articles, in the order of the recency list, each as often as it occurs there;
      the not-found message and the options are never shown together. */
  lemma OptionsSpec(sorted: seq<Article>, query: string, a: Article)
    ensures ViewOf(sorted, query).options != [] <==> exists b :: b in sorted && Matches(b, query)
    ensures a in ViewOf(sorted, query).options <==> a in sorted && Matches(a, query)
    ensures IsSubsequence(ViewOf(sorted, query).options, sorted)
    ensures multiset(ViewOf(sorted, query).options)[a] == if Matches(a, query) then multiset(sorted)[a] else 0
    ensures !(ViewOf(sorted, query).showNotFound && ViewOf(sorted, query).options != [])
  {
    assert ViewOf(sorted, query).options == Filtered(sorted, query);
    FilteredEmptyIff(sorted, query);
    FilteredMembership(sorted, query, a);
    FilteredSpec(sorted, query, a);
  }

  /** A query of whitespace only is truthy yet matches everything: every article is
      listed, and "No articles found" appears only when there are no articles. */
  lemma BlankQueryView(sorted: seq<Article>, query: string)
    requires AllSpace(query) && query != ""
    ensures ViewOf(sorted, query).options == sorted
    ensures ViewOf(sorted, query).showNotFound <==> sorted == []
  {
    FilteredBlankQuery(sorted, query);
  }

  /** Once the panel has closed, the query is empty: every article is listed and the
      not-found message is hidden. */
  lemma ClosedPanelView(sorted: seq<Article>, st: State)
    ensures ViewOf(sorted, Step(st, PanelClosed).query) == View(Categories.RecentCategories(sorted), false, sorted)
  {
    FilteredBlankQuery(sorted, "");
  }

  /** After a shortcut is clicked, every article of that category is listed, so the
      not-found message is hidden when the category is one of the article's. */
  lemma CategoryShortcutView(sorted: seq<Article>, st: State, c: string)
    ensures forall a :: a in sorted && a.category == c ==> a in ViewOf(sorted, Step(st, CategoryClicked(c)).query).options
    ensures c in Categories.RecentCategories(sorted) ==> !ViewOf(sorted, Step(st, CategoryClicked(c)).query).showNotFound
  {
    IncludesReflexive(c);
    forall a | a in sorted && a.category == c
      ensures a in Filtered(sorted, c)
    {
      FilteredMembership(sorted, c, a);
    }
    if c in Categories.RecentCategories(sorted) {
      Categories.RecentCategoriesSpec(sorted);
      var a :| a in sorted && a.category == c;
      assert a in Filtered(sorted, c);
    }
  }

  // ---------------------------------------------------------------------
  // Properties of the handlers

  /** Navigation is a log: handlers only ever add to it. */
  lemma {:induction false} NavigationsOnlyGrow(st: State, es: seq<Event>)
    ensures st.navigations <= Run(st, es).navigations
    decreases |es|
  {
    if es != [] {
      var next := Step(st, es[0]);
      NavigationsOnlyGrow(next, es[1..]);
      assert st.navigations <= next.navigations;
    }
  }

  /** Without a click on an option and without the Enter key, selections never navigate. */
  lemma {:induction false} NoNavigationWithoutEnter(st: State, es: seq<Event>)
    requires st.lastKeyDown != Some("Enter")
    requires forall i :: 0 <= i < |es| ==> es[i] != KeyPressed("Enter") && !es[i].OptionClicked?
    ensures Run(st, es).navigations == st.navigations
    decreases |es|
  {
    if es != [] {
      var next := Step(st, es[0]);
      assert es[0] != KeyPressed("Enter") && !es[0].OptionClicked?;
      assert next.lastKeyDown != Some("Enter");
      NoNavigationWithoutEnter(next, es[1..]);
    }
  }

  /** Pressing Enter and then selecting an article with a url navigates to that url. */
  lemma EnterThenSelect(st: State, a: Article)
    requires a.url != ""
    ensures Run(st, [KeyPressed("Enter"), Selected(a)]).navigations == st.navigations + [a.url]
  {
    var es := [KeyPressed("Enter"), Selected(a)];
    var s1 := Step(st, es[0]);
    assert es[1..] == [Selected(a)];
    assert Run(s1, [Selected(a)]) == Run(Step(s1, Selected(a)), []);
    assert Run(st, es) == Run(s1, [Selected(a)]);
  }
}

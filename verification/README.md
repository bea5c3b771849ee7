# brittle.systems: article search and visitor state, in Dafny

This project models two small pieces of logic from the brittle.systems site and
proves what they promise.

**The landing page's article search** (`src/components/Landing/Search.tsx`):
- **Recency order.** The `articles` prop is sorted in place, newest `modified` first, with a stable sort.
- **Shortcut categories.** The "Recently updated" list is the first five distinct categories in that order.
- **Filter.** The `includes` matcher and the filter built on it: a case-insensitive,
  whitespace-blind substring match over category, title, description and tags.
- **Event handlers.** The handlers that change the widget's state: typing, key
  presses, selecting an option, clicking an option, clicking a category shortcut,
  and closing the panel.

**The two visitor-state endpoints:**
- **`GET /api/id`** (`src/pages/api/id.ts`) gives a visitor a `uuid` cookie once.
- **`GET`/`PUT /api/scroll`** (`src/pages/api/scroll.ts`) save and restore a visitor's state under
  that cookie, in a key-value store.

One behaviour of the code the model keeps:
- **A body that is not JSON is stored anyway.** The `GET` that later reads it throws instead of answering.

Modules:

| file | module | what it holds |
|---|---|---|
| `wrappers.dfy` | `Wrappers` | `Option`, for `null` |
| `articles.dfy` | `Articles` | the `Article` record; dates are millisecond timestamps (`int`) |
| `text.dfy` | `Text` | `includes`: ASCII lower-casing, removal of the ECMAScript `\s` characters, substring search |
| `recency.dfy` | `Recency` | the stable newest-first order as a function (`SortByRecency`) and the in-place array sort proved to compute it |
| `categories.dfy` | `Categories` | `[...new Set(categories)].slice(0, 5)` |
| `filter.dfy` | `Filter` | `Array.prototype.filter` for any predicate, and the query predicate |
| `widget.dfy` | `Widget` | what a render shows (`ViewOf`), the handlers as a state step (`Step`), and the component as the class `SearchWidget` |
| `http.dfy` | `Http` | cookies, responses, and the request's cookie jar as the class `CookieJar` |
| `visitor_id.dfy` | `VisitorId` | `COOKIE_NAME` and the id handler |
| `json.dfy` | `Json` | JSON as an abstract codec with the laws the scroll endpoint relies on |
| `scroll.dfy` | `Scroll` | the scroll handlers as functions and as methods of the class `ScrollStore`, which holds the store |

## Model

| member | source | states |
|---|---|---|
| `Text.IsSpace` | src/components/Landing/Search.tsx:35 | the characters `\s` matches: the ECMAScript white space and line terminators, written out; characterised by `StripSpace`, `StripSpaceEmptyIff` and `LowerCharKeepsSpace` |
| `Text.LowerChar` | src/components/Landing/Search.tsx:34 | lower-cases one character (ASCII capitals only); characterised by `LowerCharKeepsSpace` and `ToLowerIdempotent` |
| `Text.ToLower` | src/components/Landing/Search.tsx:34 | `toLowerCase` over a string, character by character; characterised by `ToLowerIdempotent`, `StripSpaceToLowerCommute` and `Normalize` |
| `Text.Contains` | src/components/Landing/Search.tsx:36 | `String.includes` as a left-to-right scan; characterised by `ContainsIff` and `ContainsTransitive` |
| `Text.Includes` | src/components/Landing/Search.tsx:32-36 | the matcher `includes(a, b)`; characterised by `IncludesIff`, `IncludesBlank`, `IncludesIgnoresCase`, `IncludesIgnoresSpace`, `IncludesReflexive` and `IncludesTransitive` |
| `Text.StripSpace` | src/components/Landing/Search.tsx:35 | the result is no longer than the input, contains no `\s` character, and every character in it comes from the input |
| `Text.Normalize` | src/components/Landing/Search.tsx:33-36 | the normalised form of an `includes` argument contains no whitespace and no capital letter |
| `Text.ContainsIff` | src/components/Landing/Search.tsx:36 | the left-to-right scan of `String.includes` succeeds iff the needle occurs at some index of the haystack |
| `Text.ContainsTransitive` | src/components/Landing/Search.tsx:36 | a substring of a substring is a substring |
| `Text.StripSpaceAppend` | src/components/Landing/Search.tsx:35 | stripping whitespace distributes over concatenation |
| `Text.StripSpaceOfSpaceless` | src/components/Landing/Search.tsx:35 | a string without whitespace is left unchanged |
| `Text.StripSpaceEmptyIff` | src/components/Landing/Search.tsx:35 | stripping leaves nothing iff the string is whitespace only |
| `Text.ToLowerIdempotent` | src/components/Landing/Search.tsx:34 | lower-casing twice is lower-casing once |
| `Text.StripSpaceToLowerCommute` | src/components/Landing/Search.tsx:33-35 | lower-casing then stripping equals stripping then lower-casing |
| `Text.LowerCharKeepsSpace` | src/components/Landing/Search.tsx:34-35 | lower-casing a character never turns whitespace into non-whitespace or back |
| `Text.NormalizeIdempotent` | src/components/Landing/Search.tsx:33-36 | normalising a normalised string changes nothing |
| `Text.IncludesIff` | src/components/Landing/Search.tsx:32-36 | `includes(a, b)` holds iff normalised `b` occurs at some index of normalised `a` |
| `Text.IncludesBlank` | src/components/Landing/Search.tsx:32-36 | an empty or whitespace-only `b` is included in every `a` |
| `Text.IncludesIgnoresCase` | src/components/Landing/Search.tsx:32-36 | lower-casing either argument first does not change the answer |
| `Text.IncludesIgnoresSpace` | src/components/Landing/Search.tsx:32-36 | removing whitespace from either argument first does not change the answer |
| `Text.IncludesReflexive` | src/components/Landing/Search.tsx:32-36 | every string includes itself |
| `Text.IncludesTransitive` | src/components/Landing/Search.tsx:32-36 | if `a` includes `b` and `b` includes `c`, then `a` includes `c` |
| `Recency.InsertPos` | src/components/Landing/Search.tsx:20-22 | the stable insertion point lies within the list; characterised by `InsertPosSplits` and `InsertPosIs` |
| `Recency.Insert` | src/components/Landing/Search.tsx:20-22 | stable insertion of one article into a newest-first list; characterised by `InsertPermutes`, `InsertKeepsOrder` and `InsertStable` |
| `Recency.SortByRecency` | src/components/Landing/Search.tsx:20-22 | the order `sort` with the newest-first comparator produces; characterised by `SortPermutes`, `SortIsNonIncreasing`, `SortIsStable`, `SortOfNonIncreasing` and `SortIdempotent` |
| `Recency.InsertPosSplits` | src/components/Landing/Search.tsx:20-22 | the stable insertion point follows every element at least as recent as the new one (in a newest-first list); everything after it is strictly older |
| `Recency.ShiftOlder` | src/components/Landing/Search.tsx:20-22 | the inner loop of the sort shifts exactly the strictly older run before the element one place right, and leaves the rest of the array alone |
| `Recency.InsertAt` | src/components/Landing/Search.tsx:20-22 | one pass of the sort leaves the array as the stable insertion of element `i` into the prefix before it, followed by the untouched rest |
| `Recency.InsertPosIs` | src/components/Landing/Search.tsx:20-22 | the position where the shifting loop stops is the stable insertion point |
| `Recency.ShiftedIsInsert` | src/components/Landing/Search.tsx:20-22 | the array the shifting loop leaves is the stable insertion followed by the untouched rest |
| `Recency.SortByModifiedDesc` | src/components/Landing/Search.tsx:20-22 | the in-place sort leaves the array equal to `SortByRecency` of its old contents |
| `Recency.SplitAt` | src/components/Landing/Search.tsx:20-22 | splitting the array at the sorted prefix gives back the prefix, the next element and the rest |
| `Recency.SortStep` | src/components/Landing/Search.tsx:20-22 | sorting one more element of the input is inserting it into the sorted prefix |
| `Recency.InsertPermutes` | src/components/Landing/Search.tsx:20-22 | inserting adds exactly the new element to the multiset |
| `Recency.SortPermutes` | src/components/Landing/Search.tsx:20-22 | the sorted list is a permutation of the input |
| `Recency.InsertKeepsOrder` | src/components/Landing/Search.tsx:20-22 | inserting into a newest-first list keeps it newest first |
| `Recency.SortIsNonIncreasing` | src/components/Landing/Search.tsx:20-22 | `modified` never increases along the sorted list |
| `Recency.StampedAtAppend` | src/components/Landing/Search.tsx:20-22 | the articles with a given timestamp in a concatenation are those of each part, in order |
| `Recency.StampedAtOlder` | src/components/Landing/Search.tsx:20-22 | a list of strictly older articles has none with the given timestamp |
| `Recency.StampedAtAround` | src/components/Landing/Search.tsx:20-22 | the articles with a given timestamp in a three-part or two-part concatenation are those of each part, in order |
| `Recency.BackIsOlder` | src/components/Landing/Search.tsx:20-22 | nothing after the insertion point has the new element's timestamp |
| `Recency.InsertStable` | src/components/Landing/Search.tsx:20-22 | for every timestamp, insertion places the new element after all existing elements with that timestamp |
| `Recency.SortIsStable` | src/components/Landing/Search.tsx:20-22 | for every timestamp, the articles carrying it appear in the sorted list in their input order |
| `Recency.SortOfNonIncreasing` | src/components/Landing/Search.tsx:26-27 | a list that is already newest first is left as it is |
| `Recency.SortIdempotent` | src/components/Landing/Search.tsx:26-27 | sorting the sorted list again with the same comparator changes nothing |
| `Categories.RecentCategories` | src/components/Landing/Search.tsx:24-30 | the shortcut list; characterised by `RecentCategoriesSpec` |
| `Categories.CategoriesOf` | src/components/Landing/Search.tsx:28 | `map(article => article.category)`: same length, entry `i` is article `i`'s category |
| `Categories.FirstIndex` | src/components/Landing/Search.tsx:25-29 | the index returned holds the category and no earlier index does |
| `Categories.Distinct` | src/components/Landing/Search.tsx:25-29 | `new Set` iteration order has no duplicates and exactly the input's elements |
| `Categories.FirstIndexOfPrefix` | src/components/Landing/Search.tsx:25-29 | the first occurrence found in a prefix is the first occurrence in the whole list |
| `Categories.DistinctInFirstOccurrenceOrder` | src/components/Landing/Search.tsx:25-29 | the distinct categories come in the order of their first occurrence |
| `Categories.RecentCategoriesSpec` | src/components/Landing/Search.tsx:24-30 | at most five shortcuts and no repeats; each is some article's category; they come in first-occurrence order; no category that first appears earlier than a listed one is omitted; fewer than five only when every category is listed |
| `Filter.Matches` | src/components/Landing/Search.tsx:38-42 | the filter predicate: `includes` on category, title, description or tags; characterised by `FilteredMembership` |
| `Filter.Filtered` | src/components/Landing/Search.tsx:37-43 | the listed articles; characterised by `FilteredMembership`, `FilteredSpec`, `FilteredEmptyIff`, `FilteredIdempotent`, `FilteredBlankQuery` and `FilteredKeepsRecency` |
| `Filter.KeepIf` | src/components/Landing/Search.tsx:37-43 | `filter` keeps no more elements than it is given, and keeps an element iff it is in the input and passes the predicate |
| `Filter.KeepIfIsSubsequence` | src/components/Landing/Search.tsx:37-43 | the filtered list is a subsequence of the input |
| `Filter.KeepIfCounts` | src/components/Landing/Search.tsx:37-43 | each passing element is kept as often as it occurs; a failing one never appears |
| `Filter.KeepIfIdempotent` | src/components/Landing/Search.tsx:37-43 | filtering twice by the same predicate is filtering once |
| `Filter.KeepIfAll` | src/components/Landing/Search.tsx:37-43 | when every element passes, the filter returns the input |
| `Filter.KeepIfEmptyIff` | src/components/Landing/Search.tsx:37-43 | the filter returns nothing iff no element passes |
| `Filter.KeepIfKeepsRecency` | src/components/Landing/Search.tsx:37-43 | filtering a newest-first list leaves it newest first |
| `Filter.FilteredMembership` | src/components/Landing/Search.tsx:37-43 | an article is listed iff it is in the list and the query is included in its category, title, description or tags |
| `Filter.FilteredEmptyIff` | src/components/Landing/Search.tsx:37-43 | nothing is listed iff no article matches the query |
| `Filter.FilteredSpec` | src/components/Landing/Search.tsx:37-43 | the listed articles are a subsequence of the recency order; each matching article is listed as often as it occurs there, and no other article is listed |
| `Filter.FilteredIdempotent` | src/components/Landing/Search.tsx:37-43 | filtering the listed articles again by the same query changes nothing |
| `Filter.FilteredBlankQuery` | src/components/Landing/Search.tsx:32-43 | an empty or whitespace-only query lists every article |
| `Filter.FilteredKeepsRecency` | src/components/Landing/Search.tsx:37-43 | the listed articles are newest first when the list they come from is |
| `Widget.ViewOf` | src/components/Landing/Search.tsx:83-102 | what one render shows; characterised by `NotFoundIff`, `OptionsSpec`, `BlankQueryView`, `ClosedPanelView` and `CategoryShortcutView` |
| `Widget.Run` | src/components/Landing/Search.tsx:47-133 | the handlers applied to a sequence of events; characterised by `NavigationsOnlyGrow`, `NoNavigationWithoutEnter` and `EnterThenSelect` |
| `Widget.Step` | src/components/Landing/Search.tsx:47-133 | only an option click, or a selection of an article with a non-empty url while the last key was Enter, navigates; only typing, a shortcut click or closing the panel changes the query |
| `Widget.SearchWidget.constructor` | src/components/Landing/Search.tsx:15-18 | the widget starts with an empty query, no key recorded, no button clicks and no navigation |
| `Widget.SearchWidget.Render` | src/components/Landing/Search.tsx:20-43 | after a render the prop array is in recency order (sorting it a second time changes nothing), and the view is computed from that order and the query |
| `Widget.SearchWidget.OnKeyDown` | src/components/Landing/Search.tsx:61-63 | records the key as the last key pressed and changes nothing else |
| `Widget.SearchWidget.OnInputChange` | src/components/Landing/Search.tsx:64 | the query becomes the input's text and nothing else changes |
| `Widget.SearchWidget.OnComboboxChange` | src/components/Landing/Search.tsx:47-50 | navigates to the article's url iff the url is non-empty and the last key was Enter; nothing else changes |
| `Widget.SearchWidget.OnOptionClick` | src/components/Landing/Search.tsx:99-101 | always navigates to the clicked article's url; nothing else changes |
| `Widget.SearchWidget.OnCategoryClick` | src/components/Landing/Search.tsx:130-133 | the query becomes exactly the category and the combobox button is clicked once |
| `Widget.SearchWidget.AfterLeave` | src/components/Landing/Search.tsx:81 | the query is reset to the empty string and nothing else changes |
| `Widget.NotFoundIff` | src/components/Landing/Search.tsx:83-87 | "No articles found" is shown iff the query is non-empty and no article matches it |
| `Widget.OptionsSpec` | src/components/Landing/Search.tsx:88-102 | options are listed iff some article matches. The options are exactly the matching articles, each as often as it occurs, in recency order. The not-found message and the options are never shown together |
| `Widget.BlankQueryView` | src/components/Landing/Search.tsx:83-89 | a non-empty whitespace-only query lists every article and shows "No articles found" only when there are no articles |
| `Widget.ClosedPanelView` | src/components/Landing/Search.tsx:81-89 | after the panel closes, every article is listed and "No articles found" is hidden |
| `Widget.CategoryShortcutView` | src/components/Landing/Search.tsx:127-133 | after a shortcut click every article of that category is listed, and for a listed shortcut "No articles found" is hidden |
| `Widget.NavigationsOnlyGrow` | src/components/Landing/Search.tsx:47-50 | over any sequence of events, the navigation log only grows |
| `Widget.NoNavigationWithoutEnter` | src/components/Landing/Search.tsx:47-50 | without an Enter key press and without an option click, no sequence of events navigates |
| `Widget.EnterThenSelect` | src/components/Landing/Search.tsx:47-63 | pressing Enter and then selecting an article with a url navigates to that url |
| `Http.CookieJar.Set` | src/pages/api/id.ts:14 | `cookies.set` adds the cookie, replacing any of the same name, and keeps the others |
| `VisitorId.AssignId` | src/pages/api/id.ts:10-18 | the jar after the handler; characterised by `KnownVisitorUntouched`, `NewVisitorGetsOneCookie` and `AssignIdIdempotent`, and tied to the handler by `IdentifyVisitor` |
| `VisitorId.IdCookie` | src/pages/api/id.ts:14-18 | the new cookie holds the identifier. In production its domain is `brittle.systems` and it is HttpOnly and Secure. Otherwise it has no domain and neither flag |
| `VisitorId.IdentifyVisitor` | src/pages/api/id.ts:6-21 | answers 204 with no body in every case. The jar is unchanged when a `uuid` cookie is present; otherwise the new visitor's cookie is added |
| `VisitorId.KnownVisitorUntouched` | src/pages/api/id.ts:10-12 | a jar with a `uuid` cookie is left exactly as it is |
| `VisitorId.NewVisitorGetsOneCookie` | src/pages/api/id.ts:14-18 | without a `uuid` cookie, exactly one cookie is added, named `uuid`, with the new identifier and the environment's attributes; the others are kept |
| `VisitorId.AssignIdIdempotent` | src/pages/api/id.ts:10-14 | a second call keeps the identifier from the first, whatever identifier or environment it has |
| `Json.NullParses` | src/pages/api/scroll.ts:70 | under the codec laws, `JSON.parse("null")` gives the null value |
| `Scroll.VisitorKey` | src/pages/api/scroll.ts:7-15 | the `uuid` cookie's value when present; characterised by `ReadGuard` and `WriteGuard` |
| `Scroll.Retrieve` | src/pages/api/scroll.ts:68 | the storage read: the decoded stored text, or null; characterised by `NeverWrittenReadsNull` and `ReadAfterWrite` |
| `Scroll.ParseStored` | src/pages/api/scroll.ts:70 | `JSON.parse` of what was read, null read as the text `null`; characterised by `NeverWrittenReadsNull` and `ReadAfterWrite` |
| `Scroll.ReadScroll` | src/pages/api/scroll.ts:6-29 | what `GET` answers; characterised by `ReadGuard`, `NeverWrittenReadsNull`, `ReadAfterWrite`, `RoundTrip` and `OtherVisitorsUnaffected`, and tied to the handler by `ScrollStore.Get` |
| `Scroll.WriteResponse` | src/pages/api/scroll.ts:31-49 | what `PUT` answers; characterised by `WriteGuard` and `EmptyKeyWritesButNeverReads` |
| `Scroll.WriteScroll` | src/pages/api/scroll.ts:40-44 | the store after `PUT`; characterised by `WriteGuard`, `WriteOnlyItsKey`, `LastWriteWins` and `ReadAfterWrite`, and tied to the handler by `ScrollStore.Put` |
| `Scroll.ScrollStore.SetInStorage` | src/pages/api/scroll.ts:63-65 | stores the JSON text of the value under the key, replacing what was there; other keys unchanged |
| `Scroll.ScrollStore.RetrieveFromStorage` | src/pages/api/scroll.ts:67-71 | parses the decoded stored text, or the text `null` when nothing is stored; `None` when parsing throws |
| `Scroll.ScrollStore.Get` | src/pages/api/scroll.ts:6-29 | answers as `ReadScroll` does, without changing the store |
| `Scroll.ScrollStore.Put` | src/pages/api/scroll.ts:31-49 | answers as `WriteResponse` does and leaves the store as `WriteScroll` describes |
| `Scroll.ReadGuard` | src/pages/api/scroll.ts:7-20 | `GET` answers 400 with no body iff the `uuid` cookie is missing or empty |
| `Scroll.WriteGuard` | src/pages/api/scroll.ts:32-48 | `PUT` without the cookie answers 400 and writes nothing. With it, `PUT` answers 204 and stores the body's JSON text under the cookie's value |
| `Scroll.EmptyKeyWritesButNeverReads` | src/pages/api/scroll.ts:31-44 | `PUT` accepts an empty `uuid` and writes under the empty key, but `GET` with that cookie answers 400 |
| `Scroll.WriteOnlyItsKey` | src/pages/api/scroll.ts:44 | `PUT` leaves every other visitor's entry as it was |
| `Scroll.LastWriteWins` | src/pages/api/scroll.ts:44 | two `PUT`s by the same visitor leave what the second alone would leave |
| `Scroll.OtherVisitorsUnaffected` | src/pages/api/scroll.ts:22 | one visitor's `PUT` does not change what another visitor's `GET` answers |
| `Scroll.NeverWrittenReadsNull` | src/pages/api/scroll.ts:67-71 | a visitor with nothing stored reads 200, JSON content type, body `null` |
| `Scroll.ReadAfterWrite` | src/pages/api/scroll.ts:22-28 | after a visitor's `PUT`, their `GET` throws iff the body is not JSON. Otherwise it answers 200 with the body parsed and serialised again |
| `Scroll.RoundTrip` | src/pages/api/scroll.ts:22-28 | a body that is already serialised JSON is read back exactly |
| `Scroll.IdentifiedVisitorPassesGuards` | src/pages/api/scroll.ts:7-20 | a jar that went through the id handler passes both guards of `GET` and the guard of `PUT`, unless it arrived with an empty `uuid` cookie |
| `Scroll.EmptyCookieSticks` | src/pages/api/scroll.ts:15-20 | an empty `uuid` cookie survives the id handler, so `GET` keeps answering 400 for that visitor |
| `Scroll.FirstVisit` | src/pages/api/scroll.ts:6-49 | the id handler on a fresh jar, then a `PUT` of serialised JSON, then a `GET`, reads the saved value back |

## Left out

- **Rendering is not modelled.** This covers JSX, CSS classes, `toDateString()` formatting, the icon, and the input's display value `query || value?.title`.
  `Render` returns the data a render shows (`View`) instead.
- **Headless UI's own state is not modelled.** The panel's `open` flag, keyboard movement between options and the selected value belong to the `Combobox` library.
  The library fires `onChange` itself, for example on Enter or on a click. The model takes each firing as the separate event `OnComboboxChange`.
- **Side effects are recorded, not performed.** The assignment to `location.pathname` is appended to the `navigations` log.
  `comboboxButtonRef.current?.click()` is counted in `buttonClicks`.
- **React state updates take effect at once.** `setQuery` is batched until the next render in React; each handler here assigns the field immediately.
- **`onChange` with `null` is not modelled.** The combobox is `nullable`, and a `null` value would make `value.url` throw. Only non-null articles are selected.
- **Dates are plain integers.** `published` and `modified` are millisecond timestamps. An invalid `Date` (whose `Number` is `NaN`) is not modelled.
- **`Text.ToLower` maps only the ASCII capitals `A`-`Z`.** `toLowerCase` maps every Unicode capital. Strings are sequences of Unicode scalar values, not UTF-16 code units.
- **`createStorage`'s driver choice is not modelled.** The store is an in-memory map that starts empty, whether it is the Cloudflare KV binding or the memory driver.
  The map is keyed by the raw cookie value. The storage library normalises keys (`/` and `\` become `:`, anything after `?` is dropped, runs of `:` collapse to one, and a leading or trailing `:` is trimmed, so `:a` and `a` are the same key), and that is not modelled.
  So `WriteOnlyItsKey` and `OtherVisitorsUnaffected` hold of the map, not of crafted cookie values in the deployed store.
- **Writes complete before the next request.** `setItem` is not awaited in the source. Its asynchrony and races between concurrent requests are not modelled.
- **JSON is abstract.** `JSON.stringify`, `JSON.parse` and the storage library's decoding of stored text are the operations of a `Json.Codec`. Its laws (`Json.Lawful`) are assumed as a precondition, not proved.
  A `JSON.parse` that throws becomes `Scroll.Outcome.Threw`; the platform answers that with an error response, which is not modelled.
- **Some inputs are parameters.** `randomUUID()` is the `newId` argument, which must be non-empty, and the request body is the `body` argument.
- **Cookie details are not modelled.** Astro's URI-decoding of cookie values, and cookie attributes other than Domain, HttpOnly and Secure (Path, expiry), are left out.
  `cookies.has` is modelled as the name being present, so an empty `uuid` cookie counts as present.
